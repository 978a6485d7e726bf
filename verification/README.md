# A verified model of localsecrets

localsecrets is a single-node secrets server. Its master key is split into
unseal shares; a quorum of shares recovers it; it unwraps a root key; the root
key opens an append-only log of sealed events; and folding those events gives
the whole state: accounts, tokens, projects, environments and secrets. This
project models that chain in Dafny, from the bytes of the log file to the
answers callers get, and proves what the server is for: that any quorum always
gets the vault back, that shares of anything else never do, that no crash loses
or invents more than the one event being written, that what a caller was told
is done stays done, that rekeying changes no meaning, that a password or a
token makes its bearer who it should, for as long as it should and nobody else,
and that a machine token learns nothing outside its own environment.

`dafny verify dfyconfig.toml` checks everything.

## How it is laid out

| files | what they hold |
|---|---|
| `Gf256`, `Polynomials`, `Shamir`, `ShareText` | the field of 256 elements over bit-vectors, interpolation, splitting and combining, printed shares |
| `Utf8`, `Text`, `Decimal`, `Encoding`, `Calendar`, `Timestamps` | the texts and numbers every record is made of |
| `JsonValue`, `JsonGrammar`, `JsonParser` | the printer, the reader position by position, and the parser class proved equal to that |
| `JsonStrings`, `JsonDocuments`, `JsonRoundTrip` | strings and whole documents as a grammar apart from the reader, which accepts exactly these; the inverse of the printer |
| `Aead`, `Events`, `Barrier` | canonical associated data, an ideal cipher, the records |
| `Log`, `LogSafety` | the file: a class whose methods equal value-level functions, and what those functions keep |
| `State`, `Validate` | the fold, in place and as a function; input rules |
| `VaultSpec`, `Vault` | every vault operation as a function on a value, and the class over the log and the live state whose methods equal those functions |
| `VaultSafety`, `VaultOps`, `VaultRekey`, `VaultRuns` | the invariant, each operation as permitted commits, rekeying, every run |
| `VaultCeremony` | what shares offered one after another come to, repeats and misprints among them |
| `VaultAccounts`, `VaultTokens` | accounts, tokens, projects and environments: each operation exactly, and what a password or a token makes its bearer at every later point of a run |
| `VaultLasting`, `VaultStart`, `VaultRenewal` | that what was answered done lasts, that a run can begin, and when a rekey succeeds |
| `VaultAccess`, `VaultAudit` | noninterference, reading back what was written, audit records |
| `RecordLengths`, `VaultLimits` | the exact length of what is written, and exactly when a write fits |
| `RequestHead`, `RateLimiter`, `Dotenv`, `DotenvFiles` | the self-contained loops, and `.env` files as they are written |

The source's objects that update fields in place are classes (`Parser`, `Log`,
`LiveState`, `Vault`, `Reader`, `RateLimiter`); each method states its result
and its whole new state as a function of the old state, and the theorems are
about those functions. Two layers meet in `VaultSafety.Filed`: below it a file
is frames with opaque payloads, above it one barrier and a list of events.

Outcomes of the world are parameters: the clock, nonces, drawn keys,
identifiers and tokens (absent where entropy failed), password hashing and
checking, the share checksum, the token digest, and the fate of each write.
A write either completes or fails after any number of its bytes; a crash is
such a failure followed by a restart that keeps only the file.

Three assumptions are explicit in the statements that need them. Identifiers
and token digests drawn are not already in use (`VaultRuns.Fresh`). A rekey's
master key differs from the one before it (`VaultRekey.OldSharesRefused`). The
cipher is ideal: it opens exactly what was sealed under the same key and
associated data. It is given by a concrete function whose ciphertext spells
out the key and the associated data in a uniquely readable form, so nothing is
assumed beyond what `Aead.OpensExactly` proves of that function.

Where the code and its documentation part ways, the model follows the code.
`docs/security.md` line 40 says a rekey leaves the root key untouched; the code
draws a new one and re-wraps every data key (vault.rs lines 349-448), as line
96 of the same file says. Three things a reader might expect are not so.

- A write that `check_secret` accepts can be impossible: `VaultLimits.CheckDoesNotPromiseWrite` gives a family of such
  values, and `VaultLimits.CheckedWriteSucceedsExactly` the condition under which a checked write succeeds, both ways.
- A permitted delete of a missing secret leaves no audit record. `VaultAudit.DeletionsAreRecordedExactly` says that this is
  the only answer to a delete that leaves none. A change whose record fails is answered as a failure of the store and
  stays done: `VaultAudit.FailedWritesExactly` and `VaultAudit.FailedDeletionsExactly` say what the file then holds.
- A failed append can leave a whole record that memory lacks, and does so if and only if the write got to the end of the
  frame before it failed: `LogSafety.FailedWriteExactly` for the log, `VaultSafety.FailedCommitExactly` for the vault.
  The model's `inFlight` names the event whose append broke the log since the state was last read. It is no field of the
  source: no operation reads it, and in the class it is ghost. A rekey, which works from the file, takes that event up.

The state a run is compared with at its end is what memory held when the vault was last unsealed, kept in `Machine`
beside the system itself, so that runs ending sealed or down are covered as well.

## Model

| member | source | states |
|---|---|---|
| Gf256.MulIsProductModulo | crates/ls-core/src/crypto/shamir.rs:104-120 | Multiplication is the product of the two polynomials over GF(2), reduced modulo x^8+x^4+x^3+x+1 (section 4.2 of FIPS 197): it differs from that product by a multiple of the modulus. |
| Gf256.RemainderIsUnique | crates/ls-core/src/crypto/shamir.rs:104-120 | Only one byte differs from a given polynomial by a multiple of the modulus, so the previous row fixes the product. |
| Gf256.MulLoop | crates/ls-core/src/crypto/shamir.rs:104-120 | The eight-round shift-and-add loop computes the field product. |
| Gf256.AddIsGroup | crates/ls-core/src/crypto/shamir.rs:97-101 | Bytes under exclusive or are a commutative group in which every element is its own inverse. |
| Gf256.Commutative | crates/ls-core/src/crypto/shamir.rs:104-120 | Multiplication is commutative on all bytes. |
| Gf256.Associative | crates/ls-core/src/crypto/shamir.rs:104-120 | Multiplication is associative on all bytes. |
| Gf256.Distributive | crates/ls-core/src/crypto/shamir.rs:104-120 | Multiplication distributes over addition. |
| Gf256.MulUnits | crates/ls-core/src/crypto/shamir.rs:104-120 | One is the unit and zero annihilates. |
| Gf256.NoZeroDivisors | crates/ls-core/src/crypto/shamir.rs:104-120 | A product is zero only if a factor is. |
| Gf256.Frobenius8IsIdentity | crates/ls-core/src/crypto/shamir.rs:122-135 | Squaring eight times gives every byte back, that is a^256 = a. |
| Gf256.Fermat | crates/ls-core/src/crypto/shamir.rs:122-135 | a^255 = 1 for every nonzero byte. |
| Gf256.InverseLoop | crates/ls-core/src/crypto/shamir.rs:123-135 | The 254-step loop computes a^254. |
| Gf256.InverseIsInverse | crates/ls-core/src/crypto/shamir.rs:122-135 | a^254 is the multiplicative inverse of every nonzero byte, and zero of zero. |
| Gf256.DivUndoesMul | crates/ls-core/src/crypto/shamir.rs:137-140 | Dividing a product by a nonzero factor gives the other factor. |
| Polynomials.RootBound | crates/ls-core/src/crypto/shamir.rs:327-368 | A polynomial that vanishes at as many distinct points as it has coefficients is zero everywhere and in every coefficient. |
| Polynomials.InterpolationExistsUniquely | crates/ls-core/src/crypto/shamir.rs:327-368 | Through any values at distinct points there is exactly one polynomial with that many coefficients. |
| Shamir.Evaluate | crates/ls-core/src/crypto/shamir.rs:318-325 | Horner's loop evaluates the polynomial with the given constant term. |
| Shamir.Split | crates/ls-core/src/crypto/shamir.rs:284-316 | Each error in the source's order; otherwise share number i holds, byte by byte, the values at i of polynomials whose constant terms are the secret. |
| Shamir.CombineByte | crates/ls-core/src/crypto/shamir.rs:350-365 | The double loop of one byte is Lagrange interpolation at zero. |
| Shamir.Combine | crates/ls-core/src/crypto/shamir.rs:332-368 | The checks in the source's order, then interpolation of every byte; every index and length fault is reported as the source reports it. |
| Shamir.AnyThresholdRecovers | crates/ls-core/src/crypto/shamir.rs:285-368 | For every secret, threshold, share count and choice of coefficients, any list of at least threshold distinct shares, in any order, combines to the secret. |
| Shamir.SharesAreDistinct | crates/ls-core/src/crypto/shamir.rs:285-316 | No share has index zero and no two have the same index. |
| Shamir.EverySecretEquallyConsistent | crates/ls-core/src/crypto/shamir.rs:296-325 | Given any threshold - 1 distinct shares and any candidate secret of their length, exactly one coefficient vector makes the split produce those shares. |
| Base64.EncodeLoop | crates/ls-core/src/encoding.rs:8-24 | The chunk loop writes the unpadded base64url text. |
| Base64.DecodeLoop | crates/ls-core/src/encoding.rs:28-60 | The chunk loop decodes a text or refuses it. |
| Base64.RoundTrip | crates/ls-core/src/encoding.rs:8-60 | Every byte string decodes from its encoding (sections 3.5 and 5 of RFC 4648). |
| Base64.Canonical | crates/ls-core/src/encoding.rs:28-60 | Every text that decodes is the encoding of what it decodes to, so no other spelling is accepted. |
| Hex.EncodeLoop | crates/ls-core/src/encoding.rs:77-85 | The loop writes two lower-case digits a byte. |
| Hex.DecodeLoop | crates/ls-core/src/encoding.rs:88-107 | The loop reads pairs of digits of either case, or refuses. |
| Hex.RoundTrip | crates/ls-core/src/encoding.rs:77-107 | Every byte string decodes from its hexadecimal form. |
| Hex.DecodesExactly | crates/ls-core/src/encoding.rs:88-107 | A text decodes to given bytes if and only if it is their encoding, in digits of either case. |
| ShareText.PrintParse | crates/ls-core/src/crypto/shamir.rs:219-256 | A printed share parses back to itself if and only if its index is nonzero and its data is not empty. |
| ShareText.ParsedShareIsUsable | crates/ls-core/src/crypto/shamir.rs:219-244 | Whatever spelling is accepted, the share parsed has a nonzero index and data, and is stable under printing and parsing again. |
| ShareText.PaddingIgnored | crates/ls-core/src/crypto/shamir.rs:219-244 | Whitespace around a printed share makes no difference to how it is read. |
| ShareText.ParsedCarriesChecksum | crates/ls-core/src/crypto/shamir.rs:219-244 | A text that is accepted carries, behind its index and data, the checksum of exactly these. |
| ShareText.OtherChecksumRefused | crates/ls-core/src/crypto/shamir.rs:219-256 | A usable share printed with any other checksum than its own is refused for that. |
| Calendar.DaysToCivilAndBack | crates/ls-core/src/time.rs:144-173 | For every day number, the civil date is valid and converts back to it. |
| Calendar.CivilToDaysAndBack | crates/ls-core/src/time.rs:144-173 | For every valid date of any year, the day number converts back to it. |
| Calendar.DaysInDateOrder | crates/ls-core/src/time.rs:144-157 | Of two valid dates, the earlier has the smaller day number, and conversely. |
| Calendar.DaysCountDays | crates/ls-core/src/time.rs:144-157 | The day number is zero at 1970-01-01 and one more for each date than for the date before it on a wall calendar. |
| Timestamps.NumberLoop | crates/ls-core/src/time.rs:119-128 | The digit loop reads a run of digits, or refuses it. |
| Timestamps.WriteThenRead | crates/ls-core/src/time.rs:65-108 | Every timestamp in the writable range reads back from its text (section 5.6 of RFC 3339). |
| Timestamps.ReadThenWrite | crates/ls-core/src/time.rs:65-108 | Every accepted text is the one its timestamp is written as. |
| Timestamps.TextOrderIsTimeOrder | crates/ls-core/src/time.rs:65-77 | One text is lexicographically before another exactly when its time is earlier. |
| JsonValue.WriteStringLoop | crates/ls-json/src/value.rs:149-165 | The character loop writes the escaped string. |
| JsonValue.Display | crates/ls-json/src/value.rs:112-146 | The recursive printer writes the text the grammar's reader is proved against. |
| JsonParser.Parser.Bump | crates/ls-json/src/parser.rs:48-52 | Takes the next byte, if there is one. Proved against the position-by-position grammar. |
| JsonParser.Parser.ExpectByte | crates/ls-json/src/parser.rs:54-60 | Takes one given byte, or reports the byte found or the end. Proved against the position-by-position grammar. |
| JsonParser.Parser.SkipWhitespace | crates/ls-json/src/parser.rs:62-66 | Advances past the blanks of section 2 of RFC 8259. Proved against the position-by-position grammar. |
| JsonParser.Parser.LiteralWord | crates/ls-json/src/parser.rs:68-75 | Takes a literal name, or refuses at its start. Proved against the position-by-position grammar. |
| JsonParser.Parser.HexFour | crates/ls-json/src/parser.rs:236-250 | Takes four hexadecimal digits. Proved against the position-by-position grammar. |
| JsonParser.Parser.ReadUnicodeEscape | crates/ls-json/src/parser.rs:211-234 | Takes an escaped code unit or surrogate pair, refusing lone surrogates. Proved against the position-by-position grammar. |
| JsonParser.Parser.ReadEscape | crates/ls-json/src/parser.rs:195-209 | Takes one escape. Proved against the position-by-position grammar. |
| JsonParser.Parser.ReadString | crates/ls-json/src/parser.rs:167-193 | Takes a string, refusing control characters and broken UTF-8. Proved against the position-by-position grammar. |
| JsonParser.Parser.Number | crates/ls-json/src/parser.rs:252-315 | Takes a number: an integer if it has neither fraction nor exponent and fits in 64 bits. Proved against the position-by-position grammar. |
| JsonParser.Parser.ReadArray | crates/ls-json/src/parser.rs:98-124 | Takes an array, restoring the depth on success. Proved against the position-by-position grammar. |
| JsonParser.Parser.ReadObject | crates/ls-json/src/parser.rs:126-165 | Takes an object, refusing a repeated name, restoring the depth on success. Proved against the position-by-position grammar. |
| JsonParser.Parser.ReadValue | crates/ls-json/src/parser.rs:77-88 | Takes any value: the result, the new position and the depth are those of the grammar function. Proved against the position-by-position grammar. |
| JsonParser.Parser.ReadName | crates/ls-json/src/parser.rs:139-151 | Takes a field name and its colon, refusing a name already used. Proved against the position-by-position grammar. |
| JsonParser.ParseDocument | crates/ls-json/src/parser.rs:11-31 | Parsing is the grammar's reading of the whole document, with nothing after it; it terminates. |
| JsonRoundTrip.WriteThenParse | crates/ls-json/src/parser.rs:11-315 | A float-free value parses back from its rendering if and only if no object repeats a name and nesting is at most 64. |
| JsonRoundTrip.AcceptedDocuments | crates/ls-json/src/parser.rs:90-165 | Every accepted document has distinct names in each object and nesting at most 64. |
| JsonStrings.UnicodeEscapesExactly | crates/ls-json/src/parser.rs:195-250 | What a backslash and a u begin reads as a character if and only if it spells that character's UTF-16 code units in hexadecimal digits of either case (section 7 of RFC 8259). |
| JsonStrings.SurrogatesComeInPairs | crates/ls-json/src/parser.rs:211-234 | An escaped low surrogate that comes first is refused, and an escaped high one is accepted if and only if an escaped low one follows at once. |
| JsonStrings.StringsExactly | crates/ls-json/src/parser.rs:167-250 | Bytes read as a string if and only if they are quotes around spellings of its characters, each as itself, by a short escape or by its code units, in any mixture. |
| JsonDocuments.DocumentsExactly | crates/ls-json/src/parser.rs:11-315 | Bytes are accepted as a value if and only if they are a document of the grammar of RFC 8259, given as syntax trees with their blanks and digits and apart from the reader, that means this value, no object repeats a name and nesting is at most 64. |
| Events.EventRoundTrip | crates/ls-store/src/event.rs:237-494 | Every event of every kind, with optional fields present, absent or empty, reads back from its bytes. |
| Events.ToBytesInjective | crates/ls-store/src/event.rs:237-360 | Different events are different bytes. |
| Barrier.BarrierRoundTrip | crates/ls-server/src/barrier.rs:37-97 | Every barrier reads back from its bytes. |
| Aead.NewAadLoop | crates/ls-core/src/crypto/aead.rs:80-88 | The field loop builds the canonical associated data. |
| Aead.AadInjective | crates/ls-core/src/crypto/aead.rs:80-115 | Associated data determines the domain and every field, for fields whose lengths fit a 64-bit count. |
| Aead.SlotsAreSeparate | crates/ls-core/src/crypto/aead.rs:90-99 | Two secret slots share associated data only if they are the same slot, and never with a wrapped key. |
| Aead.KeyWrapsAreSeparate | crates/ls-core/src/crypto/aead.rs:95-99 | Two wrapped keys share associated data only if purpose and owner agree. |
| Aead.OpensExactly | crates/ls-core/src/crypto/aead.rs:167-215 | Of the ideal cipher: what was sealed opens under the sealing key and associated data, and under no other pair. |
| Aead.UnwrapUndoesWrap | crates/ls-core/src/crypto/aead.rs:151-165 | A wrapped key unwraps to itself under the wrapping key and associated data, and under no other pair. |
| LogFile.Scan | crates/ls-store/src/log.rs:320-359 | The scan's loop counts the whole frames and finds the end of the last, or refuses at the offset of an impossible length. |
| LogFile.ForEachRecord | crates/ls-store/src/log.rs:378-420 | The second loop hands each whole frame to the visitor in order, stopping at the first refusal. |
| LogFile.WalksAgree | crates/ls-store/src/log.rs:320-420 | On every byte string the two loops walk the same frames: where the scan accepts, the visitor sees exactly those; where it refuses, so does the visit, and at the same offset unless a visitor refused first. |
| LogFile.WalkExactly | crates/ls-store/src/log.rs:311-359 | The frames found are the only list of writable frames whose bytes, followed by at most a torn tail, make up the file; a refused file has no such reading. |
| LogFile.Log.Open | crates/ls-store/src/log.rs:55-99 | Creates, refuses, or scans and truncates, leaving the file and the log the specification function gives. |
| LogFile.Log.WriteRecord | crates/ls-store/src/log.rs:245-279 | The whole new state of a write: refused, done, or failed after any number of bytes, after which the log is broken. |
| LogFile.Log.AppendPlain | crates/ls-store/src/log.rs:120-122 | A plain record is one write. |
| LogFile.Log.Append | crates/ls-store/src/log.rs:125-135 | A sealed record is sealed for the position it will take and then written. |
| LogFile.Log.ReadPlain | crates/ls-store/src/log.rs:141-150 | Collects the plain records. |
| LogFile.Log.ReadRecords | crates/ls-store/src/log.rs:165-182 | Collects every record, opening each sealed one at its position. |
| LogFile.Log.Compact | crates/ls-store/src/log.rs:194-243 | The rewrite through a second file and a rename, with every step able to fail. |
| LogSafety.TornTailRepair | crates/ls-store/src/log.rs:55-99 | For every list of written records and every cut at or after the header, opening keeps exactly the records that fit whole, truncates to their end, counts them, and never reports corruption. |
| LogSafety.WriteKeeps | crates/ls-store/src/log.rs:245-279 | A write that is refused changes nothing. Any other leaves its one record in the file if and only if its whole frame got through, is reported done if and only if it was written in full, and stops further appends if not; on success the count is the next position. |
| LogSafety.FailedWriteExactly | crates/ls-store/src/log.rs:245-279 | A failed write leaves its record in the file if and only if at least five bytes more than the payload's length got through, and leaves the records as they were if and only if fewer did. |
| LogSafety.OpenKeeps | crates/ls-store/src/log.rs:55-99 | Opening any readable file keeps its records and gives a log that can be appended to, whatever became of the truncation. |
| LogSafety.AppendKeeps | crates/ls-store/src/log.rs:125-135 | An append leaves one record more, sealed for the position it takes, if and only if it is not refused and the whole frame got through. |
| LogSafety.CompactRewrites | crates/ls-store/src/log.rs:194-243 | On success the file is exactly the plain records then the payloads, each sealed under the new key for its new position; on any failure the log and file are as they were. |
| LogSafety.ReadsEachFrame | crates/ls-store/src/log.rs:165-182 | Reading gives one record a frame, opened at its own position, and fails if and only if some frame does not open. |
| LogSafety.PositionsAreSeparate | crates/ls-store/src/log.rs:423-425 | No two positions share associated data. |
| LogSafety.SealedOpensOnlyThere | crates/ls-store/src/log.rs:427-451 | A sealed record opens with its own key at its own position and nowhere else. |
| LogSafety.PositionBinding | crates/ls-store/src/log.rs:165-182 | However frames are reordered, repeated or spliced, if the file reads with a key then each sealed record at a position is one sealed under that key for that position. |
| StoreState.LiveState.Apply | crates/ls-store/src/state.rs:126-234 | Folding one event in place has exactly the effect of the specification's fold step. |
| StoreState.LiveState.ListSecretsIn | crates/ls-store/src/state.rs:302-312 | The filtered and sorted listing of one environment. |
| StoreState.Position | crates/ls-store/src/state.rs:154-205 | The first match of a linear search. |
| StoreState.Retain | crates/ls-store/src/state.rs:222-228 | The matches, in order. |
| StoreState.ApplyStores | crates/ls-store/src/state.rs:190-228 | What one event does to one slot, and that one entry a slot is kept. |
| StoreState.LastWriterWins | crates/ls-store/src/state.rs:126-234 | After any event list, a slot holds what its last write left or nothing, and there is one entry a slot. |
| StoreState.ListingIsSortedAndComplete | crates/ls-store/src/state.rs:302-312 | The listing is strictly sorted by key and holds exactly the secrets stored in that environment. |
| StoreState.TokensPersist | crates/ls-store/src/state.rs:126-234 | Through any further events a token keeps its place and its fields, and revocation is never undone. |
| StoreState.UsersPersist | crates/ls-store/src/state.rs:126-234 | A user, once created, stays. |
| StoreState.LookupIgnoresCase | crates/ls-store/src/state.rs:237-240 | An account is found by its address however that is capitalised and padded. |
| Validate.EmailIsNormal | crates/ls-server/src/validate.rs:58-76 | An accepted email is already in the form lookups reduce an address to. |
| Validate.EmailsExactly | crates/ls-server/src/validate.rs:58-76 | An input is accepted if and only if, trimmed and in lower case, it is a nonempty printable part, one at sign and another such part, of at most 254 bytes; and that is the address accepted. |
| Validate.CaseDoesNotMatter | crates/ls-server/src/validate.rs:58-62 | Inputs that differ only in the case of their letters and the whitespace around them are one address, or none. |
| Validate.NamesExactly | crates/ls-server/src/validate.rs:20-54 | Slugs are at most 64 and keys at most 256 characters, and not only bytes, of their alphabets; a slug begins and ends with a letter or digit. |
| Vault.Vault.Open | crates/ls-server/src/vault.rs:213-255 | Opening the store: the log, the one plain record, and the sealed vault or the error. The result and the whole new state are those of the specification function. |
| Vault.Vault.Commit | crates/ls-server/src/vault.rs:1082-1087 | Appends first and applies only on success. The result and the whole new state are those of the specification function. |
| Vault.Vault.RecordAudit | crates/ls-server/src/vault.rs:1063-1077 | Commits one audit event. The result and the whole new state are those of the specification function. |
| Vault.Vault.ResolveAndRecord | crates/ls-server/src/vault.rs:1137-1152 | Resolves for the caller, recording a name that is not there. The result and the whole new state are those of the specification function. |
| Vault.Vault.Seal | crates/ls-server/src/vault.rs:512-516 | Drops the root key, the state and the pending shares. The result and the whole new state are those of the specification function. |
| Vault.Vault.SealAs | crates/ls-server/src/vault.rs:505-509 | Seals if the caller may. The result and the whole new state are those of the specification function. |
| Vault.Vault.Replay | crates/ls-server/src/vault.rs:539-548 | Folds the file's sealed records into a fresh state. The result and the whole new state are those of the specification function. |
| Vault.Vault.TryUnseal | crates/ls-server/src/vault.rs:518-537 | Combines, unwraps, replays; on any failure changes nothing. The result and the whole new state are those of the specification function. |
| Vault.Vault.SubmitShare | crates/ls-server/src/vault.rs:455-497 | One share of the ceremony, with every early return. The result and the whole new state are those of the specification function. |
| Vault.Vault.Init | crates/ls-server/src/vault.rs:275-330 | The key ceremony, the barrier record and the root token, in the source's order of failure. The result and the whole new state are those of the specification function. |
| Vault.Vault.Rekey | crates/ls-server/src/vault.rs:349-448 | The whole rekey, in the source's order of failure. The result and the whole new state are those of the specification function. |
| Vault.Vault.CreateUser | crates/ls-server/src/vault.rs:556-586 | Creates an account or reports why not. The result and the whole new state are those of the specification function. |
| Vault.Vault.Login | crates/ls-server/src/vault.rs:589-624 | Exchanges a password for a session token. The result and the whole new state are those of the specification function. |
| Vault.Vault.IssueToken | crates/ls-server/src/vault.rs:701-726 | Issues a token. The result and the whole new state are those of the specification function. |
| Vault.Vault.IssueMachineToken | crates/ls-server/src/vault.rs:627-650 | Issues a machine token for one environment. The result and the whole new state are those of the specification function. |
| Vault.Vault.RevokeToken | crates/ls-server/src/vault.rs:656-669 | Revokes a token. The result and the whole new state are those of the specification function. |
| Vault.Vault.CreateProject | crates/ls-server/src/vault.rs:731-761 | Creates a project with a wrapped data key. The result and the whole new state are those of the specification function. |
| Vault.Vault.CreateEnvironment | crates/ls-server/src/vault.rs:764-796 | Creates an environment. The result and the whole new state are those of the specification function. |
| Vault.Vault.SetSecret | crates/ls-server/src/vault.rs:834-882 | Writes a secret, with its audit records. The result and the whole new state are those of the specification function. |
| Vault.Vault.GetSecret | crates/ls-server/src/vault.rs:885-931 | Reads a secret, with its audit records. The result and the whole new state are those of the specification function. |
| Vault.Vault.ListSecrets | crates/ls-server/src/vault.rs:934-981 | Reads an environment, with its audit records. The result and the whole new state are those of the specification function. |
| Vault.Vault.DeleteSecret | crates/ls-server/src/vault.rs:984-1027 | Removes a secret, with its audit records. The result and the whole new state are those of the specification function. |
| Vault.Vault.AuditTrail | crates/ls-server/src/vault.rs:1033-1061 | Collects the audit entries. The result and the whole new state are those of the specification function. |
| Vault.Vault.ReadHistory | crates/ls-server/src/vault.rs:360-366 | The loop that reads the whole history back under the old key. |
| Vault.Vault.CarryAll | crates/ls-server/src/vault.rs:372-400 | The loop that re-wraps project data keys and carries every other event as it is. |
| Vault.Vault.OpenEach | crates/ls-server/src/vault.rs:966-976 | The loop that opens each stored value, stopping at the first failure. |
| Vault.Vault.ResetUnseal | crates/ls-server/src/vault.rs:500-502 | Drops the shares offered so far and nothing else. |
| VaultSafety.AppliedUnique | crates/ls-server/src/vault.rs:556-586 | An event passing the checks of its operation keeps identifiers, emails, slugs and slots unique. |
| VaultSafety.FiledPlain | crates/ls-server/src/vault.rs:213-255 | An initialised file has the barrier as its one record readable without a key. |
| VaultSafety.FiledReplays | crates/ls-server/src/vault.rs:539-548 | Replaying the file gives the fold of its events, and reading its history gives them back. |
| VaultSafety.CommitKeeps | crates/ls-server/src/vault.rs:1079-1087 | A commit keeps the invariant. The file gains the event if and only if its frame got through; on success memory gains it too, on failure memory is unchanged. |
| VaultSafety.CommitLeaves | crates/ls-server/src/vault.rs:1079-1087 | The history read back after a commit is the history before it, with the event added exactly when its frame got through. |
| VaultSafety.FailedCommitExactly | crates/ls-server/src/vault.rs:1079-1087 | After a failed commit memory is the old replay, and the file's history has the event all the same if and only if the failed write reached the end of its frame. |
| VaultSafety.OpenVaultKeeps | crates/ls-server/src/vault.rs:213-255 | Opening the file of an initialised vault gives that vault, sealed, and can fail only by an input or output error. |
| VaultSafety.TryUnsealKeeps | crates/ls-server/src/vault.rs:518-537 | No set of shares unseals into anything but the vault's own root key and the replay of its file. |
| VaultSafety.UnsealsExactly | crates/ls-server/src/vault.rs:518-537 | The pending shares unseal if and only if they combine to the vault's own master key. |
| VaultSafety.QuorumUnseals | crates/ls-server/src/vault.rs:455-537 | From any point of a clean ceremony, offering the rest of a quorum in any order unseals, with the state replayed and the pending shares cleared. |
| VaultSafety.ResetThenQuorumUnseals | crates/ls-server/src/vault.rs:500-537 | After a reset, whatever had been offered before, a clean quorum in any order unseals. |
| VaultCeremony.GatheredExactly | crates/ls-server/src/vault.rs:455-497 | The shares gathered from any texts offered are those the texts spell, each once, behind those held before. |
| VaultCeremony.OffersGather | crates/ls-server/src/vault.rs:455-497 | Until the threshold is reached, offering any texts to a sealed vault does nothing but gather the shares they spell: repeats count once, and texts that spell none are passed over. |
| VaultCeremony.LastShareDecides | crates/ls-server/src/vault.rs:488-537 | The share that reaches the threshold unseals the vault if those held and it recombine to the master key; otherwise the attempt is refused and every share held is dropped. |
| VaultCeremony.FailedAttemptThenQuorum | crates/ls-server/src/vault.rs:455-537 | After a failed attempt, any quorum offered unseals the vault. |
| VaultSafety.DataKeysOpen | crates/ls-server/src/vault.rs:1217-1230 | While unsealed, the data key of every project unwraps under the root key. |
| VaultOps.OperationKeeps | crates/ls-server/src/vault.rs:834-1087 | Anything made of at most two permitted commits keeps the invariant; users and revocations persist in memory and file, and so do what every slot decrypts to but the one the operation names, and every token but the one it names. |
| VaultOps.CreateUserSteps | crates/ls-server/src/vault.rs:556-586 | The operation only ever commits events its checks make admissible, at most two of them, and changes no slot and no token but the one it names. |
| VaultOps.LoginSteps | crates/ls-server/src/vault.rs:589-624 | The operation only ever commits events its checks make admissible, at most two of them, and changes no slot and no token but the one it names. |
| VaultOps.IssueMachineTokenSteps | crates/ls-server/src/vault.rs:627-650 | The operation only ever commits events its checks make admissible, at most two of them, and changes no slot and no token but the one it names. |
| VaultOps.RevokeTokenSteps | crates/ls-server/src/vault.rs:656-669 | The operation only ever commits events its checks make admissible, at most two of them, and changes no slot and no token but the one it names. |
| VaultOps.CreateProjectSteps | crates/ls-server/src/vault.rs:731-761 | The operation only ever commits events its checks make admissible, at most two of them, and changes no slot and no token but the one it names. |
| VaultOps.CreateEnvironmentSteps | crates/ls-server/src/vault.rs:764-796 | The operation only ever commits events its checks make admissible, at most two of them, and changes no slot and no token but the one it names. |
| VaultOps.SetSecretSteps | crates/ls-server/src/vault.rs:834-882 | The operation only ever commits events its checks make admissible, at most two of them, and changes no slot and no token but the one it names. |
| VaultOps.GetSecretSteps | crates/ls-server/src/vault.rs:885-931 | The operation only ever commits events its checks make admissible, at most two of them, and changes no slot and no token but the one it names. |
| VaultOps.ListSecretsSteps | crates/ls-server/src/vault.rs:934-981 | The operation only ever commits events its checks make admissible, at most two of them, and changes no slot and no token but the one it names. |
| VaultOps.DeleteSecretSteps | crates/ls-server/src/vault.rs:984-1027 | The operation only ever commits events its checks make admissible, at most two of them, and changes no slot and no token but the one it names. |
| VaultRekey.CeremonyHolds | crates/ls-server/src/vault.rs:389-400 | A ceremony that yields a barrier has split the very master key that wraps the root key, with the counts asked for. |
| VaultRekey.RekeyKeeps | crates/ls-server/src/vault.rs:349-448 | All or nothing: on any failure vault and file are exactly as they were; on success the new hierarchy's shares are the ones handed out, the file holds its history, and the state is the replay. |
| VaultRekey.RekeyPreservesMeaning | crates/ls-server/src/vault.rs:349-448 | On success users, tokens, environments and secrets are unchanged, projects differ only in the wrapping of their data keys, every slot decrypts to what it did, and the file has one plain record. |
| VaultRekey.RekeyExtendsTrail | crates/ls-server/src/vault.rs:349-448 | The old audit trail is a prefix of the new one, which has the rekey as its one further entry. |
| VaultRekey.OldSharesRefused | crates/ls-server/src/vault.rs:332-348 | Shares that recombine to the previous master key are refused afterwards, the new master key being a different one. |
| VaultRekey.CrashAfterRename | crates/ls-server/src/vault.rs:420-448 | After the rename of a rekey that would have succeeded, the file alone opens as a sealed vault of the new hierarchy, and shares unseal it if and only if they combine to the new master key. |
| VaultRenewal.RekeySucceedsExactly | crates/ls-server/src/vault.rs:349-448 | In an unsealed vault, given entropy for every draw and a disk that completes every step, a rekey succeeds if and only if the caller is a session, the counts are workable and the event that records it is within the limit: any history can be carried. |
| VaultRekey.TrailIsAudits | crates/ls-server/src/vault.rs:1033-1061 | The trail is the audit events of the file, oldest first. |
| VaultRuns.NewStoreIsBlank | crates/ls-server/src/vault.rs:213-255 | A missing or empty store opens as a vault never initialised. |
| VaultStart.InitSucceedsExactly | crates/ls-server/src/vault.rs:275-330 | On a store that is blank or holds a vault, given entropy for every draw and two completed writes, init succeeds if and only if there is no vault yet and the counts are workable; otherwise it changes nothing and says which. |
| VaultRuns.InitEstablishes | crates/ls-server/src/vault.rs:275-330 | A successful init gives an unsealed vault satisfying the invariant, with exactly its shares handed out. |
| VaultRuns.RunHolds | crates/ls-server/src/vault.rs:349-1087 | Every run of operations, sealing, share submission, rekeying, failed writes and restarts keeps the invariant, and what any slot holds, or any token is, that no step is asked to change. |
| VaultRuns.EveryRunCanBeUnsealed | crates/ls-server/src/vault.rs:455-548 | After every run from a successful init, however it ends, restarting and offering any quorum of the printed shares last handed out, in any order, unseals; the state is what memory held when last unsealed, or that and the very event whose append had broken the log. |
| VaultRuns.CrashDuringCommit | crates/ls-server/src/vault.rs:1079-1087 | After a crash at any byte of a commit, restart and quorum, the state has that very event if its frame got through, as it did if the commit was reported done, and is what it was if not. |
| VaultLasting.HeldLasts | crates/ls-server/src/vault.rs:455-1087 | What a slot decrypts to in an unsealed vault with a sound log, or that it is empty, and what a token is, is so at the end of every run that is not asked to change it, in memory and after a restart and a quorum. |
| VaultLasting.AcknowledgedWriteLasts | crates/ls-server/src/vault.rs:834-882 | Once a write is answered done, its slot decrypts to the value after every later run in which no step sets or deletes it, whatever seals, crashes, restarts and rekeys the run has, and after a restart and any quorum. |
| VaultLasting.AcknowledgedDeleteLasts | crates/ls-server/src/vault.rs:984-1027 | Once a deletion is answered done, its slot stays empty in the same way. |
| VaultRuns.EveryRunStaysUnique | crates/ls-server/src/vault.rs:556-796 | At every point of every run emails, project slugs, environment slugs within a project, identifiers and slots are unique. |
| VaultRuns.RevokedStaysRevoked | crates/ls-server/src/vault.rs:656-699 | Once revoked, a token authenticates at no later point of any run, whatever the clock says. |
| VaultRuns.RootStaysSpent | crates/ls-server/src/vault.rs:673-699 | Once an account exists nothing authenticates as root at any later point of any run. |
| VaultAccounts.LoginExactly | crates/ls-server/src/vault.rs:589-624 | Given entropy and a write that completes, a login succeeds if and only if the lifetime is in range and there is an account under the normalised address against whose hash the password verifies, and the event fits; with no such account nothing changes. |
| VaultAccounts.LoginRefused | crates/ls-server/src/vault.rs:589-624 | With no account that the address and password let in, the answer is that the credentials are bad, or first that the lifetime is out of range, and nothing changes. |
| VaultAccounts.LoginIssues | crates/ls-server/src/vault.rs:589-726 | A login answered with a secret has added exactly one event to memory and file: a session for the account let in, known by the digest of that secret, expiring as many seconds from now as asked. |
| VaultTokens.OnlyItsPasswordLetsIn | crates/ls-server/src/vault.rs:556-624 | After an account is created with a hash, at every later point of any run a password that does not verify against that hash is refused on that address, however it is spelled, and one that does is judged by that account alone. |
| VaultAccounts.CreateUserExactly | crates/ls-server/src/vault.rs:556-586 | Given a hash, an identifier and a write that completes, an account is created if and only if the caller is no machine, the address is one and is not taken, and the event fits; what it adds is that address with that hash. |
| VaultAccounts.AuthenticatesExactly | crates/ls-server/src/vault.rs:673-699 | A text is recognised as a caller if and only if its digest is that of a token that is not revoked, not expired and, if it is the root token, not spent, and the caller has that token's identifier, kind and scope. |
| VaultAccounts.IssueMachineTokenExactly | crates/ls-server/src/vault.rs:627-650 | Given entropy and a write that completes, a machine token is issued if and only if the caller is a session, the lifetime is in range, the names resolve and the event fits; what it adds is a machine token for the project and environment they stand for. |
| VaultTokens.TokenLasts | crates/ls-server/src/vault.rs:673-699 | At every later point of any run at which the vault is unsealed, the text a token is known by makes its bearer who it was issued to if and only if the token is not revoked, not expired and not a spent root token. |
| VaultTokens.MachineTokenLasts | crates/ls-server/src/vault.rs:627-699 | From the moment it is issued, through any run, a machine token's secret is recognised if and only if it is not revoked and not expired, and makes its bearer a machine with the identifier drawn, confined to what the two names resolved to. |
| VaultTokens.SessionLasts | crates/ls-server/src/vault.rs:589-699 | From the moment of a login, through any run, its secret is recognised if and only if it is not revoked and not expired, as a session of the very account let in. |
| VaultTokens.RootTokenLasts | crates/ls-server/src/vault.rs:275-699 | From init on, through any run, the root token is recognised, as root, if and only if it is not revoked and there is no account. |
| VaultAccounts.RevokeTokenExactly | crates/ls-server/src/vault.rs:656-669 | Given a write that completes, revoking succeeds if and only if there is such a token, the caller is its holder or a session, and the event fits. |
| VaultAccounts.RevokeTokenRevokes | crates/ls-server/src/vault.rs:656-669 | A revocation answered done has revoked the token named and no other, left everything else as it was, and added its one event to the file. |
| VaultTokens.RevocationLasts | crates/ls-server/src/vault.rs:656-699 | Once a revocation is answered done, nothing whose digest is that token's authenticates at any later point of any run. |
| VaultAccounts.OnlySessionsAdminister | crates/ls-server/src/vault.rs:170-176 | Creating projects and environments, issuing machine tokens, revoking another's token, sealing and the audit trail are refused to machines and to root, and nothing changes. |
| VaultAccounts.OnlyTheirOwnAreServed | crates/ls-server/src/vault.rs:834-1027 | Secrets are written and deleted by sessions alone, and read by sessions and by machines of that very environment alone. |
| VaultAccounts.SealForgets | crates/ls-server/src/vault.rs:505-516 | Sealing drops the root key, the state and the pending shares and nothing else, and is open to sessions alone. |
| VaultAccounts.SealedServesNobody | crates/ls-server/src/vault.rs:656-1182 | A sealed vault recognises no token; reads, writes, deletions and revocations are refused and leave it as it was. |
| VaultAccounts.SealedMakesNothing | crates/ls-server/src/vault.rs:556-796 | Nor does a sealed vault sign anyone in, or make or issue anything. |
| VaultTokens.SealedStays | crates/ls-server/src/vault.rs:349-1087 | Through any run in which no share is offered a sealed vault stays sealed, whatever else is asked of it. |
| VaultAccounts.CreateProjectExactly | crates/ls-server/src/vault.rs:731-761 | Given an identifier, a key, a nonce and a write that completes, a project is created if and only if the caller is a session, the slug is one and is not taken, and the event fits. |
| VaultAccounts.ProjectIsReached | crates/ls-server/src/vault.rs:731-761 | A project that was created is reached by its slug, with its name, and its data key unwraps to the one drawn for it. |
| VaultAccounts.CreateEnvironmentExactly | crates/ls-server/src/vault.rs:764-796 | The same for an environment, of a project that is there. |
| VaultAccounts.EnvironmentIsReached | crates/ls-server/src/vault.rs:764-796 | An environment that was created is what its project's slug and its own resolve to. |
| VaultAccess.ResolvesToOwn | crates/ls-server/src/vault.rs:1096-1111 | With unique names, a pair of names resolves to a pair of identifiers exactly when they are its own. |
| VaultAccess.MachineReadsTheSame | crates/ls-server/src/vault.rs:885-931 | Two vaults agreeing on a machine's own project, environment and secrets give it the same answer for every name and key, given audit appends succeed. |
| VaultAccess.MachineListsTheSame | crates/ls-server/src/vault.rs:934-981 | The same for listing, however and in whatever order the secrets came to be stored. |
| VaultAccess.MachineNeverSets | crates/ls-server/src/vault.rs:834-882 | A machine's write is refused whatever it names, with an answer depending only on its own input, and the state unchanged. |
| VaultAccess.MachineNeverDeletes | crates/ls-server/src/vault.rs:984-1027 | A machine's delete is refused whatever it names, and the state unchanged. |
| VaultAccess.MachineCheckIsRefused | crates/ls-server/src/vault.rs:1157-1182 | A machine's check depends only on its own input. |
| VaultAccess.SetIsReadBack | crates/ls-server/src/vault.rs:834-882 | A successful write makes its slot decrypt to the value written and leaves what every other slot decrypts to as it was. |
| VaultAccess.GetIsRevealed | crates/ls-server/src/vault.rs:885-931 | A successful read returns what its slot decrypts to. |
| VaultAccess.GetAnswersExactly | crates/ls-server/src/vault.rs:885-931 | A read that is permitted, and whose record can be made, is answered with exactly what the slot decrypts to, or that it is missing, or that it does not open. |
| VaultAccess.ListIsRevealed | crates/ls-server/src/vault.rs:934-981 | A listing has its keys strictly ascending, and has a key with a value if and only if that slot of the environment named decrypts to it. |
| VaultAccess.ListSucceedsExactly | crates/ls-server/src/vault.rs:934-981 | A listing that is permitted, and whose record can be made, is answered if and only if no slot of that environment holds what does not open. |
| VaultAccess.MovedSecretRefused | crates/ls-server/src/vault.rs:1253-1262 | A sealed value found under any slot decrypts if and only if it was sealed for that slot under that project's data key. |
| VaultAccess.MovedKeyRefused | crates/ls-server/src/vault.rs:1217-1251 | A wrapped data key found under any project unwraps if and only if it was wrapped for that project under this root key. |
| VaultAudit.EveryReadIsRecorded | crates/ls-server/src/vault.rs:885-931 | A read that answers with a value, a missing name or secret, or a refusal leaves the file with exactly one event more: the record of who asked for what and was told what. |
| VaultAudit.EveryListingIsRecorded | crates/ls-server/src/vault.rs:934-981 | The same for a listing, given, refused or of names that are not there. |
| VaultAudit.EveryWriteIsRecorded | crates/ls-server/src/vault.rs:834-882 | A write answered leaves the file with the event that made it, if it was made, and then the record of who tried what and was told what, and nothing else. |
| VaultAudit.DeletionsAreRecordedExactly | crates/ls-server/src/vault.rs:984-1027 | A delete answered leaves the file with its event, if it was made, and its record, if and only if not (the names resolve, the caller may delete there, and the secret is missing); in that case nothing at all is added. |
| VaultAudit.FailedWritesExactly | crates/ls-server/src/vault.rs:834-882 | What the file gains, and memory becomes, when a write ends in a failure of the store: a refusal's record, or the change, or the change and its record, each exactly if its frame got through. A change done whose record then fails stays done, recorded only if the record got through. |
| VaultAudit.FailedDeletionsExactly | crates/ls-server/src/vault.rs:984-1027 | The same for a deletion. |
| VaultAudit.ActorsIdentify | crates/ls-server/src/vault.rs:142-152 | Two callers are recorded under one name if and only if they are one user, or one token of no user. |
| VaultAudit.TargetsIdentify | crates/ls-server/src/vault.rs:834-1027 | For names in use, two accesses are recorded with one target if and only if they are to one secret, or list one environment. |
| RecordLengths.SecretSetSize | crates/ls-store/src/event.rs:237-360 | The exact number of bytes of the event that writes a secret, from the escaped lengths of its texts, its nonce and its ciphertext, whatever the time. |
| RecordLengths.AuditedSize | crates/ls-store/src/event.rs:237-360 | The exact number of bytes of an audit event, from the escaped lengths of its texts, whatever the time. |
| RecordLengths.ProjectCreatedSize | crates/ls-store/src/event.rs:237-360 | The exact number of bytes of the event that creates a project, which another wrapping of its data key does not change. |
| RecordLengths.AppendsExactly | crates/ls-store/src/log.rs:125-135 | With a nonce and a write that completes, an append to an unbroken log succeeds if and only if its payload is within the cipher's limit. |
| RecordLengths.AppendsAllExactly | crates/ls-store/src/log.rs:212-220 | A list of records is appended in full if and only if every payload is within the limit. |
| VaultLimits.CommitsExactly | crates/ls-server/src/vault.rs:1079-1087 | The same for a commit and the bytes of its event. |
| VaultLimits.CheckedWriteSucceedsExactly | crates/ls-server/src/vault.rs:834-1182 | In a vault whose next two writes complete, a write accepted by the check seals its value and succeeds if and only if the event holding that nonce and ciphertext and the event that records it are within the limit of one sealed record. The condition is a sum of the lengths of nonce and ciphertext and of the escaped texts, for ciphertexts of any length. |
| VaultLimits.CheckedWriteWithIdealCipher | crates/ls-server/src/vault.rs:834-1182 | The same with the length this model's ideal cipher gives a ciphertext. |
| VaultLimits.LargeWritesFail | crates/ls-server/src/vault.rs:834-882 | Whatever the vault and the disk do, no value of more than half the advertised limit can be written, as its ciphertext is spelled in hexadecimal. |
| VaultLimits.CheckDoesNotPromiseWrite | crates/ls-server/src/vault.rs:1157-1182 | The family that shows the check is no promise: every value between half the limit and the limit passes it for a session and cannot be written. |
| VaultLimits.DeleteSucceedsExactly | crates/ls-server/src/vault.rs:984-1027 | In a vault whose next two writes complete, a deletion that is permitted succeeds if and only if the secret is there and its two events are within the limit of one sealed record. |
| RequestHead.ReadHead | crates/ls-http/src/request.rs:139-197 | For every stream and every way its bytes arrive, the result and what is left unread depend on the stream alone. |
| RequestHead.HeadIsShortest | crates/ls-http/src/request.rs:139-197 | A head is returned exactly when it is the shortest prefix ending in a blank line, and is within the limit. |
| RequestHead.ReadBody | crates/ls-http/src/request.rs:202-223 | Exactly the declared bytes are taken, or the body is incomplete. |
| RequestHead.HeadThenBody | crates/ls-http/src/request.rs:139-223 | A head, its body and what follows are taken apart exactly. |
| RateLimiter.RateLimiter.Allow | crates/ls-server/src/rate_limit.rs:57-85 | One attempt: the sweep of a full map, the refusal, the window and the count. |
| RateLimiter.AtMostTwiceTheBudget | crates/ls-server/src/rate_limit.rs:57-85 | On a clock that never goes back, no half-open interval of one window's length has more than twice the budget of allowed attempts on an address that never logs in, whatever other addresses do and whatever is evicted. |
| RateLimiter.SuccessRestoresBudget | crates/ls-server/src/rate_limit.rs:57-90 | After a successful login, whatever other addresses do meanwhile, the next attempt on the address is allowed if and only if the map then has room for it, as it has at once; and then exactly the budget of its attempts within one window is allowed, whatever others do in between. Other addresses are counted as they were. |
| RateLimiter.LetInAgain | crates/ls-server/src/rate_limit.rs:57-85 | However an address used up its budget, once a window's length has gone by since its last attempt the next is allowed, unless the address is no longer tracked and the map is full of others within theirs. |
| RateLimiter.OneCountAnAddress | crates/ls-server/src/rate_limit.rs:57-104 | However an address is capitalised and padded, it is one address to the limiter. |
| RateLimiter.NeverOverfull | crates/ls-server/src/rate_limit.rs:61-71 | The map never exceeds its limit. |
| Dotenv.DotenvQuote | crates/ls-cli/src/commands.rs:615-638 | The two character loops of the writer. |
| Dotenv.Unquote | crates/ls-cli/src/commands.rs:666-698 | The character loop of the reader. |
| Dotenv.ParseDotenv | crates/ls-cli/src/commands.rs:642-664 | The line loop of the reader. |
| Dotenv.ExportAll | crates/ls-cli/src/commands.rs:441-446 | The export loop. |
| Dotenv.UnquoteQuote | crates/ls-cli/src/commands.rs:615-698 | Every text at all unquotes from its quoted form. |
| Dotenv.ExportThenRead | crates/ls-cli/src/commands.rs:441-446 | Every list of valid keys with arbitrary values reads back from its export, in order. |
| DotenvFiles.FileReads | crates/ls-cli/src/commands.rs:642-698 | Every file, given as its lines are written and apart from the reader, reads as what they set, in order: remarks, blank lines and lines without an equals sign set nothing; the export keyword, whitespace around names and values, quotes, escapes and line ends are read as such. |

## Left out

- Aead.OpensExactly: the ideal cipher models authenticity and binding, not secrecy, and its ciphertext is longer than the real one, which adds sixteen bytes.
- Shamir.EverySecretEquallyConsistent: a count of coefficient vectors, which is what uniform drawing makes into secrecy; no probability is modelled.
- JsonValue.Display: does not render floating-point values, whose digits the standard library of the source chooses; no record the server writes holds one.
- JsonParser.Parser.Number: a number with a fraction or exponent, or beyond 64 bits, is kept as its text; the standard library's conversion of that text to a floating-point value is not modelled.
- JsonRoundTrip.WriteThenParse: says nothing of values that hold a floating-point number, for the same reason.
- VaultLimits.CheckedWriteWithIdealCipher: the length is the ideal cipher's, `RecordLengths.Overhead` more than the value; the real cipher adds sixteen bytes, to which `VaultLimits.CheckedWriteSucceedsExactly` applies as it stands.
- LogSafety.PositionBinding: sequence numbers are taken to fit in 64 bits, as the source's do.
- LogFile.Scan: partial reads and read errors of the buffered reader are not modelled; a read returns what the file holds.
- RequestHead.ReadHead: deadlines and read errors do not fire; each arrival holds at least one byte.
- RateLimiter.AtMostTwiceTheBudget: counters are unbounded where the source's are 32 and 64 bits wide.
- LogFile.Log.Compact: the second file is not state, so a failed rewrite leaves the log as it was by the model's construction; what is left of that file, and its removal at the next attempt, are not modelled.
- VaultRuns.EveryRunCanBeUnsealed: a crash in a rekey after its rename and before its shares are handed out is not a step of a run; it leaves a file that only the new master key opens (`VaultRekey.CrashAfterRename`), and no one holds its shares. A failed init is not the start of a run; the store it leaves must be removed, as the error says.
- Concurrency, the lock around the vault, file permissions, directory flushing and what survives a power loss beyond a prefix of the last write and an atomic rename.
- Constant-time comparison and the clearing of keys from memory.
- AES-GCM, SHA-256, argon2 and the operating system's entropy, which are libraries.
- The listing of project and environment slugs, account lookup by identifier and the small getters, which would add only easy members.
- The parsing of the request line, headers, target and query; `strip_cr` lets a bare newline end the headers, since an empty line is accepted (request.rs lines 227-233).
- Routing, status codes, host and origin checks, and all commands of the client but the `.env` functions.
- The bit loops inside one base64 chunk are arithmetic on the chunk's value rather than loops of their own.
- The clamping of timestamps is modelled; the saturation of the 64-bit addition before it is not, as no sum of a timestamp and an accepted lifetime comes near it.
- Within one token's issue the clock's two readings are taken to agree.
- Reading operations of the vault (`authenticate`, `resolve`, `authorise`, `check_secret`) are functions on the vault's value, as the source only reads there.
