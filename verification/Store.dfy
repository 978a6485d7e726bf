/** Limits and errors shared by everything that touches the store. */
module Store {
  const HEADER_LEN := 8
  const MAX_RECORD_LEN := 1048576

  datatype StoreError =
    | NotALog
    | UnsupportedVersion(version: nat)
    | Unreadable(sequence: nat)
    | RecordTooLarge(len: nat, limit: nat)
    | Crypto
    | MalformedEvent(what: string)
    | Broken
    | Corrupt(at: nat)
    | Io
}
