/**
 UTF-8, the form in which every text value reaches a byte buffer. A Dafny
 `char` is a Unicode scalar value, so a `string` is exactly a Rust `str`.
 */
module Utf8 {
  import opened Wrappers
  import opened Bytes

  function EncodeChar(c: char): (b: seq<byte>)
    ensures 1 <= |b| <= 4
  {
    var n := c as int;
    if n < 0x80 then [n]
    else if n < 0x800 then [0xC0 + n / 64, 0x80 + n % 64]
    else if n < 0x10000 then [0xE0 + n / 64 / 64, 0x80 + n / 64 % 64, 0x80 + n % 64]
    else [0xF0 + n / 64 / 64 / 64, 0x80 + n / 64 / 64 % 64, 0x80 + n / 64 % 64, 0x80 + n % 64]
  }

  function Encode(s: string): seq<byte> {
    if s == "" then [] else EncodeChar(s[0]) + Encode(s[1..])
  }

  predicate Continuation(b: byte) {
    0x80 <= b < 0xC0
  }

  predicate Continues(b: seq<byte>, length: nat)
    requires length <= |b|
  {
    forall k :: 1 <= k < length ==> Continuation(b[k])
  }

  predicate Scalar(n: int) {
    0 <= n < 0xD800 || 0xE000 <= n < 0x110000
  }

  // The length a lead byte announces, or 0 if it cannot start a character.
  function LeadLength(b: byte): nat {
    if b < 0x80 then 1
    else if b < 0xC0 then 0
    else if b < 0xE0 then 2
    else if b < 0xF0 then 3
    else if b < 0xF8 then 4
    else 0
  }

  // The number a character of `length` bytes carries.
  function CodePoint(b: seq<byte>, length: nat): int
    requires 1 <= length <= |b| && length <= 4
  {
    if length == 1 then b[0]
    else if length == 2 then Pair(b[0] as int - 0xC0, b[1] as int - 0x80)
    else if length == 3 then Pair(Pair(b[0] as int - 0xE0, b[1] as int - 0x80), b[2] as int - 0x80)
    else Pair(Pair(Pair(b[0] as int - 0xF0, b[1] as int - 0x80), b[2] as int - 0x80), b[3] as int - 0x80)
  }

  function Pair(high: int, low: int): int {
    high * 64 + low
  }

  // The smallest scalar that needs `length` bytes.
  function Smallest(length: nat): nat {
    if length == 1 then 0 else if length == 2 then 0x80 else if length == 3 then 0x800 else 0x10000
  }

  // The first character and its length; None if the bytes do not start with
  // a well-formed, shortest-form character.
  function DecodeFirst(b: seq<byte>): (r: Option<(char, nat)>)
    requires b != []
    ensures r.Some? ==> 1 <= r.value.1 <= |b|
  {
    var length := LeadLength(b[0]);
    if length == 0 || length > |b| then None
    else if !Continues(b, length) then None
    else
      var n := CodePoint(b, length);
      if Smallest(length) <= n && Scalar(n) then Some((n as char, length)) else None
  }

  function Decode(b: seq<byte>): Option<string> {
    if b == [] then Some("")
    else
      match DecodeFirst(b)
      case None => None
      case Some(first) =>
        match Decode(b[first.1..])
        case None => None
        case Some(rest) => Some([first.0] + rest)
  }

  lemma SplitPairs(n: int)
    ensures Pair(n / 64, n % 64) == n
  {
  }

  lemma DecodeFirstEncoded(c: char, rest: seq<byte>)
    ensures DecodeFirst(EncodeChar(c) + rest) == Some((c, |EncodeChar(c)|))
  {
    var e := EncodeChar(c);
    var b := e + rest;
    var n := c as int;
    assert forall k :: 0 <= k < |e| ==> b[k] == e[k];
    hide Pair;
    SplitPairs(n);
    SplitPairs(n / 64);
    SplitPairs(n / 64 / 64);
    assert LeadLength(b[0]) == |e| && Continues(b, |e|);
    assert CodePoint(b, |e|) == n;
  }

  lemma {:induction false} EncodeDecode(s: string)
    ensures Decode(Encode(s)) == Some(s)
  {
    if s != "" {
      var rest := Encode(s[1..]);
      DecodeFirstEncoded(s[0], rest);
      assert Encode(s)[|EncodeChar(s[0])|..] == rest;
      EncodeDecode(s[1..]);
      assert s == [s[0]] + s[1..];
    }
  }

  /** A character that decodes is its one encoding. */
  lemma DecodedFirstEncodes(b: seq<byte>)
    requires b != [] && DecodeFirst(b).Some?
    ensures EncodeChar(DecodeFirst(b).value.0) == b[..DecodeFirst(b).value.1]
  {
    var length := LeadLength(b[0]);
    var n := CodePoint(b, length);
    if length == 2 {
      PairSplits(b[0] as int - 0xC0, b[1] as int - 0x80);
    } else if length == 3 {
      var high := Pair(b[0] as int - 0xE0, b[1] as int - 0x80);
      PairSplits(b[0] as int - 0xE0, b[1] as int - 0x80);
      PairSplits(high, b[2] as int - 0x80);
    } else if length == 4 {
      var top := Pair(b[0] as int - 0xF0, b[1] as int - 0x80);
      var high := Pair(top, b[2] as int - 0x80);
      PairSplits(b[0] as int - 0xF0, b[1] as int - 0x80);
      PairSplits(top, b[2] as int - 0x80);
      PairSplits(high, b[3] as int - 0x80);
    }
  }

  lemma PairSplits(high: int, low: int)
    requires 0 <= low < 64
    ensures Pair(high, low) / 64 == high && Pair(high, low) % 64 == low
  {
  }

  lemma EncodeInjective(s: string, t: string)
    requires Encode(s) == Encode(t)
    ensures s == t
  {
    EncodeDecode(s);
    EncodeDecode(t);
  }

  lemma {:induction false} EncodeConcat(s: string, t: string)
    ensures Encode(s + t) == Encode(s) + Encode(t)
  {
    if s == "" {
      assert s + t == t;
    } else {
      assert (s + t)[1..] == s[1..] + t;
      EncodeConcat(s[1..], t);
    }
  }

  predicate Ascii(s: string) {
    forall i :: 0 <= i < |s| ==> s[i] < 128 as char
  }

  lemma {:induction false} EncodeAscii(s: string)
    requires Ascii(s)
    ensures |Encode(s)| == |s|
    ensures forall i :: 0 <= i < |s| ==> Encode(s)[i] == s[i] as int
  {
    if s != "" {
      EncodeAscii(s[1..]);
    }
  }

  // Every character takes at least one byte.
  lemma {:induction false} EncodeAtLeast(s: string)
    ensures |Encode(s)| >= |s|
  {
    if s != "" {
      EncodeAtLeast(s[1..]);
    }
  }

  // Bytes below 128 are characters of their own.
  lemma {:induction false} AsciiBytes(s: string)
    requires forall i :: 0 <= i < |Encode(s)| ==> Encode(s)[i] < 128
    ensures Ascii(s)
  {
    if s != "" {
      assert Encode(s)[0] == EncodeChar(s[0])[0];
      assert forall i :: 0 <= i < |Encode(s[1..])| ==> Encode(s[1..])[i] == Encode(s)[|EncodeChar(s[0])| + i];
      AsciiBytes(s[1..]);
    }
  }
}
