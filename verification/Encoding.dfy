/** URL-safe base64 without padding, and hexadecimal. */
module Base64 {
  import opened Wrappers
  import opened Bytes
  import Utf8

  // The letter for six bits.
  function Letter(v: int): (c: char)
    requires 0 <= v < 64
    ensures c < 128 as char
  {
    if v < 26 then (65 + v) as char
    else if v < 52 then (97 + (v - 26)) as char
    else if v < 62 then (48 + (v - 52)) as char
    else if v == 62 then '-'
    else '_'
  }

  function ValueOf(c: byte): (v: Option<int>)
    ensures v.Some? ==> 0 <= v.value < 64
  {
    if 65 <= c <= 90 then Some(c - 65)
    else if 97 <= c <= 122 then Some(c - 97 + 26)
    else if 48 <= c <= 57 then Some(c - 48 + 52)
    else if c == 45 then Some(62)
    else if c == 95 then Some(63)
    else None
  }

  lemma LetterValue(v: int)
    requires 0 <= v < 64
    ensures ValueOf(Letter(v) as int) == Some(v)
  {
  }

  lemma ValueLetter(c: byte)
    requires ValueOf(c).Some?
    ensures Letter(ValueOf(c).value) as int == c
  {
  }

  // ----- one group of up to three bytes -----

  // A group is 24 bits, read as three bytes or as four six-bit values.
  function Bits8(b0: int, b1: int, b2: int): int {
    Join(256, Join(256, b0, b1), b2)
  }

  function Bits6(v0: int, v1: int, v2: int, v3: int): int {
    Join(64, Join(64, Join(64, v0, v1), v2), v3)
  }

  function Join(base: int, high: int, low: int): int {
    high * base + low
  }

  function EncodeGroup(chunk: seq<byte>): (s: string)
    requires 1 <= |chunk| <= 3
    ensures |s| == |chunk| + 1 && Utf8.Ascii(s)
  {
    var bits := Bits8(chunk[0], if |chunk| > 1 then chunk[1] else 0, if |chunk| > 2 then chunk[2] else 0);
    [Letter(bits / 64 / 64 / 64), Letter(bits / 64 / 64 % 64)]
    + (if |chunk| > 1 then [Letter(bits / 64 % 64)] else [])
    + (if |chunk| > 2 then [Letter(bits % 64)] else [])
  }

  // A group of two to four letters; the bits that encode nothing must be zero.
  function DecodeGroup(chunk: seq<byte>): (r: Option<seq<byte>>)
    requires 2 <= |chunk| <= 4
    ensures r.Some? ==> |r.value| == |chunk| - 1
  {
    var v0, v1 := ValueOf(chunk[0]), ValueOf(chunk[1]);
    var v2 := if |chunk| > 2 then ValueOf(chunk[2]) else Some(0);
    var v3 := if |chunk| > 3 then ValueOf(chunk[3]) else Some(0);
    if v0.None? || v1.None? || v2.None? || v3.None? then None
    else
      var bits := Bits6(v0.value, v1.value, v2.value, v3.value);
      if |chunk| == 2 && bits / 64 / 64 % 16 != 0 then None
      else if |chunk| == 3 && bits / 64 % 4 != 0 then None
      else
        Some([bits / 256 / 256]
             + (if |chunk| > 2 then [bits / 256 % 256] else [])
             + (if |chunk| > 3 then [bits % 256] else []))
  }

  lemma Split64(n: int)
    ensures Join(64, n / 64, n % 64) == n
  {
  }

  lemma Split256(n: int)
    ensures Join(256, n / 256, n % 256) == n
  {
  }

  lemma Joined64(high: int, low: int)
    requires 0 <= low < 64
    ensures Join(64, high, low) / 64 == high && Join(64, high, low) % 64 == low
  {
  }

  lemma Joined256(high: int, low: int)
    requires 0 <= low < 256
    ensures Join(256, high, low) / 256 == high && Join(256, high, low) % 256 == low
  {
  }

  // A byte boundary in terms of six-bit values.
  lemma LowByte(n: int)
    ensures n % 256 == n / 64 % 4 * 64 + n % 64
    ensures n / 256 % 256 == n / 64 / 64 % 16 * 16 + n / 64 % 64 / 4
  {
    assert n / 64 / 4 == n / 256;
    LowNibble(n / 64);
  }

  lemma LowNibble(m: int)
    ensures m / 4 % 256 == m / 64 % 16 * 16 + m % 64 / 4
  {
    assert m == m / 64 * 64 + m % 64;
    assert m / 4 == m / 64 * 16 + m % 64 / 4;
    assert m / 64 == m / 64 / 16 * 16 + m / 64 % 16;
  }

  // The letters of a group, as the bytes the decoder sees.
  function Codes(s: string): (b: seq<byte>)
    requires Utf8.Ascii(s)
    ensures |b| == |s|
    ensures forall i :: 0 <= i < |s| ==> b[i] == s[i] as int
  {
    seq(|s|, i requires 0 <= i < |s| => s[i] as int)
  }

  // The four six-bit values of three bytes spell the same 24 bits.
  lemma Regroup(b0: byte, b1: byte, b2: byte)
    ensures var bits := Bits8(b0, b1, b2);
            && bits == Bits6(bits / 64 / 64 / 64, bits / 64 / 64 % 64, bits / 64 % 64, bits % 64)
            && bits / 256 / 256 == b0 && bits / 256 % 256 == b1 && bits % 256 == b2
            && 0 <= bits / 64 / 64 / 64 < 64
            && (b2 == 0 ==> bits % 64 == 0 && bits / 64 % 4 == 0)
            && (b1 == 0 && b2 == 0 ==> bits / 64 % 64 == 0 && bits / 64 / 64 % 16 == 0)
  {
    var bits := Bits8(b0, b1, b2);
    assert 0 <= bits < 16777216;
    LowByte(bits);
    hide Join;
    Joined256(Join(256, b0, b1), b2);
    Joined256(b0, b1);
    Split64(bits);
    Split64(bits / 64);
    Split64(bits / 64 / 64);
  }

  // The three bytes of four six-bit values spell the same 24 bits.
  lemma Respell(v0: int, v1: int, v2: int, v3: int)
    requires 0 <= v0 < 64 && 0 <= v1 < 64 && 0 <= v2 < 64 && 0 <= v3 < 64
    ensures var bits := Bits6(v0, v1, v2, v3);
            && bits == Bits8(bits / 256 / 256, bits / 256 % 256, bits % 256)
            && bits / 64 / 64 / 64 == v0 && bits / 64 / 64 % 64 == v1 && bits / 64 % 64 == v2 && bits % 64 == v3
            && (v3 == 0 && bits / 64 % 4 == 0 ==> bits % 256 == 0)
            && (v2 == 0 && v3 == 0 && bits / 64 / 64 % 16 == 0 ==> bits / 256 % 256 == 0 && bits % 256 == 0)
  {
    var bits := Bits6(v0, v1, v2, v3);
    LowByte(bits);
    hide Join;
    Joined64(Join(64, Join(64, v0, v1), v2), v3);
    Joined64(Join(64, v0, v1), v2);
    Joined64(v0, v1);
    Split256(bits);
    Split256(bits / 256);
  }

  // The letters stand for exactly the six-bit values of the group.
  lemma LettersOfGroup(chunk: seq<byte>)
    requires 1 <= |chunk| <= 3
    ensures var bits := Bits8(chunk[0], if |chunk| > 1 then chunk[1] else 0, if |chunk| > 2 then chunk[2] else 0);
            var codes := Codes(EncodeGroup(chunk));
            && |codes| == |chunk| + 1
            && ValueOf(codes[0]) == Some(bits / 64 / 64 / 64) && ValueOf(codes[1]) == Some(bits / 64 / 64 % 64)
            && (|chunk| > 1 ==> ValueOf(codes[2]) == Some(bits / 64 % 64))
            && (|chunk| > 2 ==> ValueOf(codes[3]) == Some(bits % 64))
  {
    hide Letter, ValueOf, Bits8;
    var bits := Bits8(chunk[0], if |chunk| > 1 then chunk[1] else 0, if |chunk| > 2 then chunk[2] else 0);
    Regroup(chunk[0], if |chunk| > 1 then chunk[1] else 0, if |chunk| > 2 then chunk[2] else 0);
    LetterValue(bits / 64 / 64 / 64);
    LetterValue(bits / 64 / 64 % 64);
    LetterValue(bits / 64 % 64);
    LetterValue(bits % 64);
  }

  lemma GroupRoundTrip(chunk: seq<byte>)
    requires 1 <= |chunk| <= 3
    ensures DecodeGroup(Codes(EncodeGroup(chunk))) == Some(chunk)
  {
    hide Letter, ValueOf, Bits8, Bits6, EncodeGroup;
    var b1, b2 := if |chunk| > 1 then chunk[1] else 0, if |chunk| > 2 then chunk[2] else 0;
    var bits := Bits8(chunk[0], b1, b2);
    Regroup(chunk[0], b1, b2);
    LettersOfGroup(chunk);
    if |chunk| == 1 {
      assert bits % 64 == 0 && bits / 64 % 64 == 0;
    }
    var decoded := DecodeGroup(Codes(EncodeGroup(chunk)));
    assert decoded.Some? && |decoded.value| == |chunk|;
    assert decoded.value == chunk;
  }

  lemma GroupCanonical(chunk: seq<byte>)
    requires 2 <= |chunk| <= 4 && DecodeGroup(chunk).Some?
    ensures Codes(EncodeGroup(DecodeGroup(chunk).value)) == chunk
  {
    hide Letter, ValueOf, Bits8, Bits6;
    var v0, v1 := ValueOf(chunk[0]).value, ValueOf(chunk[1]).value;
    var v2 := if |chunk| > 2 then ValueOf(chunk[2]).value else 0;
    var v3 := if |chunk| > 3 then ValueOf(chunk[3]).value else 0;
    Respell(v0, v1, v2, v3);
    ValueLetter(chunk[0]);
    ValueLetter(chunk[1]);
    if |chunk| > 2 { ValueLetter(chunk[2]); }
    if |chunk| > 3 { ValueLetter(chunk[3]); }
  }

  // ----- whole strings -----

  function EncodeBytes(input: seq<byte>): (s: string)
    ensures Utf8.Ascii(s)
  {
    if input == [] then ""
    else if |input| <= 3 then EncodeGroup(input)
    else EncodeGroup(input[..3]) + EncodeBytes(input[3..])
  }

  // A length that splits into groups of four and at most one shorter group.
  predicate Groups(n: nat) {
    n % 4 != 1
  }

  lemma GroupLengths(n: nat)
    requires Groups(n)
    ensures n != 1 && (n > 4 ==> Groups(n - 4))
  {
  }

  // Decode from a group boundary on.
  function DecodeGroups(b: seq<byte>): Option<seq<byte>>
    requires Groups(|b|)
  {
    hide Groups, DecodeGroup;
    GroupLengths(|b|);
    if b == [] then Some([])
    else if |b| <= 4 then DecodeGroup(b)
    else
      match DecodeGroup(b[..4])
      case None => None
      case Some(first) =>
        match DecodeGroups(b[4..])
        case None => None
        case Some(rest) => Some(first + rest)
  }

  function DecodeText(text: string): Option<seq<byte>> {
    var b := Utf8.Encode(text);
    if !Groups(|b|) then None else DecodeGroups(b)
  }

  lemma NextGroup(b: seq<byte>, position: nat, end: nat)
    requires position < |b| && Groups(|b| - position)
    requires end == if position + 4 <= |b| then position + 4 else |b|
    ensures position + 2 <= end <= |b| && Groups(|b| - end)
    ensures DecodeGroups(b[position..])
         == match DecodeGroup(b[position..end])
            case None => None
            case Some(group) => Prepend(group, DecodeGroups(b[end..]))
  {
    hide DecodeGroup;
    assert b[position..][..end - position] == b[position..end];
    assert b[position..][end - position..] == b[end..];
    if end == |b| {
      assert b[position..] == b[position..end] && b[end..] == [];
      var group := DecodeGroup(b[position..end]);
      if group.Some? {
        assert group.value + [] == group.value;
      }
    }
  }

  /** One output group per three input bytes. */
  method EncodeLoop(input: seq<byte>) returns (out: string)
    ensures out == EncodeBytes(input)
  {
    hide EncodeGroup;
    out := "";
    var position := 0;
    assert input[0..] == input;
    while position < |input|
      invariant 0 <= position <= |input|
      invariant out + EncodeBytes(input[position..]) == EncodeBytes(input)
    {
      var end := if position + 3 <= |input| then position + 3 else |input|;
      NextInputGroup(out, input, position, end);
      out := out + EncodeGroup(input[position..end]);
      position := end;
    }
    assert out + EncodeBytes(input[position..]) == out;
  }

  lemma NextInputGroup(out: string, input: seq<byte>, position: nat, end: nat)
    requires position < |input| && end == if position + 3 <= |input| then position + 3 else |input|
    ensures out + EncodeBytes(input[position..])
         == (out + EncodeGroup(input[position..end])) + EncodeBytes(input[end..])
  {
    hide EncodeGroup;
    assert input[position..][..end - position] == input[position..end];
    assert input[position..][end - position..] == input[end..];
    if end == |input| {
      assert input[position..] == input[position..end] && input[end..] == [];
      assert EncodeGroup(input[position..end]) + "" == EncodeGroup(input[position..end]);
    }
    assert EncodeBytes(input[position..]) == EncodeGroup(input[position..end]) + EncodeBytes(input[end..]);
  }

  /** Decode group by group, stopping at the first malformed one. */
  method DecodeLoop(text: string) returns (r: Option<seq<byte>>)
    ensures r == DecodeText(text)
  {
    hide DecodeGroup, Utf8.Encode, Groups, DecodeGroups;
    var b := Utf8.Encode(text);
    if !Groups(|b|) {
      return None;
    }
    var out: seq<byte> := [];
    var position := 0;
    assert b[0..] == b;
    NoGroups();
    PrependTwice([], [], DecodeGroups(b));
    while position < |b|
      invariant 0 <= position <= |b| && Groups(|b| - position)
      invariant DecodeGroups(b) == Prepend(out, DecodeGroups(b[position..]))
    {
      var end := if position + 4 <= |b| then position + 4 else |b|;
      NextGroup(b, position, end);
      var group := DecodeGroup(b[position..end]);
      if group.None? {
        return None;
      }
      PrependTwice(out, group.value, DecodeGroups(b[end..]));
      out := out + group.value;
      position := end;
    }
    assert b[position..] == [];
    assert out + [] == out;
    r := Some(out);
  }

  lemma NoGroups()
    ensures Groups(0) && DecodeGroups([]) == Some([])
  {
  }

  lemma {:induction false} DecodeEncodedGroups(input: seq<byte>)
    ensures Groups(|EncodeBytes(input)|)
    ensures DecodeGroups(Codes(EncodeBytes(input))) == Some(input)
  {
    hide EncodeGroup, DecodeGroup;
    if input == [] {
    } else if |input| <= 3 {
      GroupRoundTrip(input);
    } else {
      GroupRoundTrip(input[..3]);
      DecodeEncodedGroups(input[3..]);
      var codes := Codes(EncodeBytes(input));
      assert codes[..4] == Codes(EncodeGroup(input[..3]));
      assert codes[4..] == Codes(EncodeBytes(input[3..]));
      assert input == input[..3] + input[3..];
    }
  }

  lemma {:induction false} EncodeDecodedGroups(b: seq<byte>)
    requires Groups(|b|) && DecodeGroups(b).Some?
    ensures Codes(EncodeBytes(DecodeGroups(b).value)) == b
  {
    hide EncodeGroup, DecodeGroup;
    if b == [] {
    } else if |b| <= 4 {
      GroupCanonical(b);
    } else {
      GroupCanonical(b[..4]);
      EncodeDecodedGroups(b[4..]);
      var first, rest := DecodeGroup(b[..4]).value, DecodeGroups(b[4..]).value;
      assert |first| == 3;
      assert (first + rest)[..3] == first && (first + rest)[3..] == rest;
      assert b == b[..4] + b[4..];
    }
  }

  lemma CodesAreUtf8(s: string)
    requires Utf8.Ascii(s)
    ensures Utf8.Encode(s) == Codes(s)
  {
    Utf8.EncodeAscii(s);
  }

  /** Decoding undoes encoding, for every byte string. */
  lemma RoundTrip(input: seq<byte>)
    ensures DecodeText(EncodeBytes(input)) == Some(input)
  {
    DecodeEncodedGroups(input);
    CodesAreUtf8(EncodeBytes(input));
  }

  /** An accepted text is the one and only spelling of what it decodes to. */
  lemma Canonical(text: string)
    requires DecodeText(text).Some?
    ensures EncodeBytes(DecodeText(text).value) == text
  {
    var s := EncodeBytes(DecodeText(text).value);
    EncodeDecodedGroups(Utf8.Encode(text));
    CodesAreUtf8(s);
    Utf8.EncodeInjective(s, text);
  }
}

module Hex {
  import opened Wrappers
  import opened Bytes
  import Text
  import Utf8

  function Digit(v: int): (c: char)
    requires 0 <= v < 16
    ensures c < 128 as char
  {
    if v < 10 then (48 + v) as char else (97 + (v - 10)) as char
  }

  // Either case is accepted.
  function Nibble(c: byte): (v: Option<int>)
    ensures v.Some? ==> 0 <= v.value < 16
  {
    if 48 <= c <= 57 then Some(c - 48)
    else if 97 <= c <= 102 then Some(c - 97 + 10)
    else if 65 <= c <= 70 then Some(c - 65 + 10)
    else None
  }

  function EncodeBytes(input: seq<byte>): (s: string)
    ensures Utf8.Ascii(s) && |s| == 2 * |input|
  {
    if input == [] then ""
    else [Digit(input[0] / 16), Digit(input[0] % 16)] + EncodeBytes(input[1..])
  }

  function DecodePairs(b: seq<byte>): Option<seq<byte>>
    requires |b| % 2 == 0
  {
    if b == [] then Some([])
    else
      var high, low := Nibble(b[0]), Nibble(b[1]);
      if high.None? || low.None? then None
      else
        match DecodePairs(b[2..])
        case None => None
        case Some(rest) => Some([high.value * 16 + low.value] + rest)
  }

  function DecodeText(text: string): Option<seq<byte>> {
    var b := Utf8.Encode(text);
    if |b| % 2 != 0 then None else DecodePairs(b)
  }

  method EncodeLoop(input: seq<byte>) returns (out: string)
    ensures out == EncodeBytes(input)
  {
    out := "";
    for i := 0 to |input|
      invariant out + EncodeBytes(input[i..]) == EncodeBytes(input)
    {
      assert input[i..][1..] == input[i + 1..];
      out := out + [Digit(input[i] / 16), Digit(input[i] % 16)];
    }
  }

  method DecodeLoop(text: string) returns (r: Option<seq<byte>>)
    ensures r == DecodeText(text)
  {
    var b := Utf8.Encode(text);
    if |b| % 2 != 0 {
      return None;
    }
    hide Nibble, Utf8.Encode;
    var out: seq<byte> := [];
    var i := 0;
    assert b[0..] == b;
    PrependTwice([], [], DecodePairs(b));
    while i < |b|
      invariant 0 <= i <= |b| && (|b| - i) % 2 == 0
      invariant DecodePairs(b) == Prepend(out, DecodePairs(b[i..]))
    {
      assert b[i..][2..] == b[i + 2..];
      var high, low := Nibble(b[i]), Nibble(b[i + 1]);
      if high.None? || low.None? {
        return None;
      }
      PrependTwice(out, [high.value * 16 + low.value], DecodePairs(b[i + 2..]));
      out := out + [high.value * 16 + low.value];
      i := i + 2;
    }
    assert out + [] == out;
    r := Some(out);
  }

  lemma DigitNibble(v: int)
    requires 0 <= v < 16
    ensures Nibble(Digit(v) as int) == Some(v)
  {
  }

  lemma {:induction false} PairsRoundTrip(input: seq<byte>)
    ensures |Utf8.Encode(EncodeBytes(input))| == 2 * |input|
    ensures DecodePairs(Utf8.Encode(EncodeBytes(input))) == Some(input)
  {
    hide Digit, Nibble;
    if input != [] {
      var pair, rest := [Digit(input[0] / 16), Digit(input[0] % 16)], EncodeBytes(input[1..]);
      Utf8.EncodeConcat(pair, rest);
      Utf8.EncodeAscii(pair);
      DigitNibble(input[0] / 16);
      DigitNibble(input[0] % 16);
      PairsRoundTrip(input[1..]);
      var b := Utf8.Encode(EncodeBytes(input));
      assert b == Utf8.Encode(pair) + Utf8.Encode(rest);
      assert b[2..] == Utf8.Encode(rest);
      assert input == [input[0]] + input[1..];
    }
  }

  /** Decoding undoes encoding. */
  lemma RoundTrip(input: seq<byte>)
    ensures DecodeText(EncodeBytes(input)) == Some(input)
  {
    PairsRoundTrip(input);
  }

  // ----- what is accepted, exactly -----

  lemma NibbleExactly(c: byte, v: int)
    requires 0 <= v < 16
    ensures Nibble(c) == Some(v) ==> c < 128
    ensures Nibble(c) == Some(v) <==> Text.SameLetter(c as char, Digit(v))
  {
  }

  lemma BytePair(high: int, low: int, b: byte)
    requires 0 <= high < 16 && 0 <= low < 16
    ensures high * 16 + low == b <==> high == b / 16 && low == b % 16
  {
  }

  lemma {:induction false} PairsExactly(b: seq<byte>, input: seq<byte>)
    requires |b| % 2 == 0
    ensures DecodePairs(b) == Some(input)
       <==> |b| == 2 * |input| && forall i :: 0 <= i < |b| ==> Nibble(b[i]) == Some(Half(input, i))
    decreases |b|
  {
    hide Nibble;
    if b != [] && input != [] {
      PairsExactly(b[2..], input[1..]);
      assert Half(input, 0) == input[0] / 16 && Half(input, 1) == input[0] % 16;
      assert forall i :: 2 <= i < |b| ==> b[i] == b[2..][i - 2] && Half(input, i) == Half(input[1..], i - 2);
      var high, low := Nibble(b[0]), Nibble(b[1]);
      if high.Some? && low.Some? {
        BytePair(high.value, low.value, input[0]);
      }
      assert input == [input[0]] + input[1..];
    }
  }

  // The four bits that digit `i` stands for.
  function Half(input: seq<byte>, i: nat): (v: int)
    ensures 0 <= v < 16
  {
    if i / 2 >= |input| then 0 else if i % 2 == 0 then input[i / 2] / 16 else input[i / 2] % 16
  }

  lemma {:induction false} DigitsAt(input: seq<byte>, i: nat)
    requires i < 2 * |input|
    ensures EncodeBytes(input)[i] == Digit(Half(input, i))
  {
    hide Digit;
    if i >= 2 {
      DigitsAt(input[1..], i - 2);
      assert Half(input, i) == Half(input[1..], i - 2);
    }
  }

  /** A text decodes to these bytes if and only if it is their encoding, in digits of either case. */
  lemma DecodesExactly(text: string, input: seq<byte>)
    ensures DecodeText(text) == Some(input) <==> Text.SameButForCase(text, EncodeBytes(input))
  {
    hide Nibble, Digit, EncodeBytes, DecodePairs, Text.SameLetter, Half;
    var b, e := Utf8.Encode(text), EncodeBytes(input);
    if |b| % 2 == 0 {
      PairsExactly(b, input);
    }
    forall i | 0 <= i < |e|
      ensures e[i] == Digit(Half(input, i))
    {
      DigitsAt(input, i);
    }
    forall c: byte, i: nat
      ensures Nibble(c) == Some(Half(input, i)) ==> c < 128
      ensures Nibble(c) == Some(Half(input, i)) <==> Text.SameLetter(c as char, Digit(Half(input, i)))
    {
      NibbleExactly(c, Half(input, i));
    }
    if DecodeText(text) == Some(input) {
      Utf8.AsciiBytes(text);
      Utf8.EncodeAscii(text);
    }
    if Text.SameButForCase(text, e) {
      SameIsAscii(text, e);
      Utf8.EncodeAscii(text);
    }
  }

  lemma SameIsAscii(text: string, e: string)
    requires Text.SameButForCase(text, e) && Utf8.Ascii(e)
    ensures Utf8.Ascii(text)
  {
    forall i | 0 <= i < |text|
      ensures text[i] < 128 as char
    {
      assert Text.SameLetter(text[i], e[i]);
    }
  }
}
