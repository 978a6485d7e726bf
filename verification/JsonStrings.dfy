/**
 Every way to spell a string in JSON (section 7 of RFC 8259), set down apart
 from the reader, and that the reader accepts exactly those spellings.
 */
module JsonStrings {
  import opened Wrappers
  import opened Bytes
  import opened JsonGrammar
  import opened JsonRoundTrip
  import Utf8

  // ----- one escaped code unit -----

  // A hexadecimal digit in either case.
  function HexDigit(v: int, upper: bool): byte
    requires 0 <= v < 16
  {
    if v < 10 then 48 + v else if upper then 65 + (v - 10) else 97 + (v - 10)
  }

  // The four digits of a 16-bit unit, each in the case chosen for it.
  function UnitDigits(unit: int, upper: seq<bool>): (b: seq<byte>)
    requires 0 <= unit < 0x10000 && |upper| == 4
    ensures |b| == 4
  {
    [HexDigit(unit / 16 / 16 / 16, upper[0]), HexDigit(unit / 16 / 16 % 16, upper[1]),
     HexDigit(unit / 16 % 16, upper[2]), HexDigit(unit % 16, upper[3])]
  }

  lemma DigitReads(v: int, upper: bool)
    requires 0 <= v < 16
    ensures HexValue(HexDigit(v, upper)) == Some(v as nat)
  {
  }

  lemma FourDigits(unit: int)
    ensures unit / 16 / 16 / 16 * 16 * 16 * 16 + unit / 16 / 16 % 16 * 16 * 16 + unit / 16 % 16 * 16 + unit % 16 == unit
  {
  }

  // What four digits read as, spelled out.
  lemma Hex4Is(b: seq<byte>, pos: nat)
    requires pos + 4 <= |b|
    ensures var v0, v1, v2, v3 := HexValue(b[pos]), HexValue(b[pos + 1]), HexValue(b[pos + 2]), HexValue(b[pos + 3]);
            Hex4(b, pos, 0, 0)
            == if v0.Some? && v1.Some? && v2.Some? && v3.Some?
               then Ok((v0.value * 16 * 16 * 16 + v1.value * 16 * 16 + v2.value * 16 + v3.value, pos + 4))
               else Err(Unexpected(pos))
  {
    hide HexValue;
    var v0, v1, v2, v3 := HexValue(b[pos]), HexValue(b[pos + 1]), HexValue(b[pos + 2]), HexValue(b[pos + 3]);
    if v0.Some? {
      assert Hex4(b, pos, 0, 0) == Hex4(b, pos, 1, v0.value);
      if v1.Some? {
        assert Hex4(b, pos, 1, v0.value) == Hex4(b, pos, 2, v0.value * 16 + v1.value);
        if v2.Some? {
          var three := (v0.value * 16 + v1.value) * 16 + v2.value;
          assert Hex4(b, pos, 2, v0.value * 16 + v1.value) == Hex4(b, pos, 3, three);
          if v3.Some? {
            assert Hex4(b, pos, 3, three) == Hex4(b, pos, 4, three * 16 + v3.value);
          }
        }
      }
    }
  }

  lemma DigitBack(c: byte)
    requires HexValue(c).Some?
    ensures HexValue(c).value < 16 && HexDigit(HexValue(c).value, c < 97) == c
  {
  }

  // Four digits read as a unit exactly when they are digits of that unit, in some case each.
  lemma Hex4Exactly(b: seq<byte>, pos: nat, unit: int)
    requires pos + 4 <= |b| && 0 <= unit < 0x10000
    ensures Hex4(b, pos, 0, 0) == Ok((unit, pos + 4))
       <==> exists upper :: |upper| == 4 && b[pos..pos + 4] == UnitDigits(unit, upper)
    ensures Hex4(b, pos, 0, 0).Ok? ==> 0 <= Hex4(b, pos, 0, 0).value.0 < 0x10000
  {
    hide Hex4, HexValue, HexDigit;
    Hex4Is(b, pos);
    FourDigits(unit);
    if Hex4(b, pos, 0, 0).Ok? {
      DigitBack(b[pos]);
      DigitBack(b[pos + 1]);
      DigitBack(b[pos + 2]);
      DigitBack(b[pos + 3]);
      UnitOf(HexValue(b[pos]).value, HexValue(b[pos + 1]).value, HexValue(b[pos + 2]).value,
             HexValue(b[pos + 3]).value);
      if Hex4(b, pos, 0, 0) == Ok((unit, pos + 4)) {
        var upper := [b[pos] < 97, b[pos + 1] < 97, b[pos + 2] < 97, b[pos + 3] < 97];
        assert b[pos..pos + 4] == UnitDigits(unit, upper);
      }
    }
    forall upper | |upper| == 4 && b[pos..pos + 4] == UnitDigits(unit, upper)
      ensures Hex4(b, pos, 0, 0) == Ok((unit, pos + 4))
    {
      UnitReads(b, pos, unit, upper);
    }
  }

  lemma UnitOf(v0: int, v1: int, v2: int, v3: int)
    requires 0 <= v0 < 16 && 0 <= v1 < 16 && 0 <= v2 < 16 && 0 <= v3 < 16
    ensures var unit := v0 * 16 * 16 * 16 + v1 * 16 * 16 + v2 * 16 + v3;
            && 0 <= unit < 0x10000 && unit / 16 / 16 / 16 == v0 && unit / 16 / 16 % 16 == v1
            && unit / 16 % 16 == v2 && unit % 16 == v3
  {
    var unit := v0 * 16 * 16 * 16 + v1 * 16 * 16 + v2 * 16 + v3;
    assert unit / 16 == v0 * 16 * 16 + v1 * 16 + v2;
    assert unit / 16 / 16 == v0 * 16 + v1;
  }

  lemma UnitReads(b: seq<byte>, pos: nat, unit: int, upper: seq<bool>)
    requires pos + 4 <= |b| && 0 <= unit < 0x10000 && |upper| == 4 && b[pos..pos + 4] == UnitDigits(unit, upper)
    ensures Hex4(b, pos, 0, 0) == Ok((unit, pos + 4))
  {
    hide Hex4, HexValue, HexDigit;
    var d := b[pos..pos + 4];
    assert b[pos] == d[0] && b[pos + 1] == d[1] && b[pos + 2] == d[2] && b[pos + 3] == d[3];
    DigitReads(unit / 16 / 16 / 16, upper[0]);
    DigitReads(unit / 16 / 16 % 16, upper[1]);
    DigitReads(unit / 16 % 16, upper[2]);
    DigitReads(unit % 16, upper[3]);
    Hex4Is(b, pos);
    FourDigits(unit);
  }

  // ----- one character -----

  // The UTF-16 code units of a character: itself, or a high and a low surrogate.
  function Utf16(c: char): (units: seq<int>)
    ensures 1 <= |units| <= 2 && forall i :: 0 <= i < |units| ==> 0 <= units[i] < 0x10000
  {
    var n := c as int;
    if n < 0x10000 then [n] else [0xD800 + (n - 0x10000) / 1024, 0xDC00 + (n - 0x10000) % 1024]
  }

  // The letter of a two-character escape, for the eight characters that have one.
  function ShortLetter(c: char): Option<byte> {
    if c == '"' then Some(34)
    else if c == '\\' then Some(92)
    else if c == '/' then Some(47)
    else if c == '\U{8}' then Some(98)
    else if c == '\U{c}' then Some(102)
    else if c == '\n' then Some(110)
    else if c == '\r' then Some(114)
    else if c == '\t' then Some(116)
    else None
  }

  // A character as it may be spelled: as itself, by a short escape, or by its
  // code units, each digit in the case chosen for it.
  datatype Piece = Raw(c: char) | Short(c: char) | Escaped(c: char, upper: seq<bool>)

  predicate Legal(p: Piece) {
    match p
    case Raw(c) => c >= ' ' && c != '"' && c != '\\'
    case Short(c) => ShortLetter(c).Some?
    case Escaped(c, upper) => |upper| == 4 * |Utf16(c)|
  }

  function SpellUnit(unit: int, upper: seq<bool>): (b: seq<byte>)
    requires 0 <= unit < 0x10000 && |upper| == 4
    ensures |b| == 6
  {
    [92, 117] + UnitDigits(unit, upper)
  }

  function Spelling(p: Piece): (b: seq<byte>)
    requires Legal(p)
    ensures b != []
  {
    match p
    case Raw(c) => Utf8.EncodeChar(c)
    case Short(c) => [92, ShortLetter(c).value]
    case Escaped(c, upper) =>
      var units := Utf16(c);
      if |units| == 1 then SpellUnit(units[0], upper)
      else SpellUnit(units[0], upper[..4]) + SpellUnit(units[1], upper[4..])
  }

  predicate HighSurrogate(unit: int) {
    0xD800 <= unit < 0xDC00
  }

  predicate LowSurrogate(unit: int) {
    0xDC00 <= unit < 0xE000
  }

  lemma UnitAt(b: seq<byte>, pos: nat, unit: int, upper: seq<bool>)
    requires 0 <= unit < 0x10000 && |upper| == 4 && At(b, pos, SpellUnit(unit, upper))
    ensures pos + 6 <= |b| && b[pos] == 92 && b[pos + 1] == 117 && b[pos + 2..pos + 6] == UnitDigits(unit, upper)
    ensures Hex4(b, pos + 2, 0, 0) == Ok((unit, pos + 6))
  {
    hide HexDigit, Hex4;
    var x := SpellUnit(unit, upper);
    AtByte(b, pos, x, 0);
    AtByte(b, pos, x, 1);
    assert b[pos + 2..pos + 6] == b[pos..pos + 6][2..] == x[2..];
    UnitReads(b, pos + 2, unit, upper);
  }

  lemma UnitsJoin(c: char)
    ensures c as int >= 0x10000 ==>
              var units := Utf16(c);
              && |units| == 2 && HighSurrogate(units[0]) && LowSurrogate(units[1])
              && 0x10000 + (units[0] - 0xD800) * 1024 + (units[1] - 0xDC00) == c as int
    ensures c as int < 0x10000 ==> Utf16(c) == [c as int] && !HighSurrogate(c as int) && !LowSurrogate(c as int)
  {
  }

  // A character spelled by its units reads as that character.
  lemma EscapedReads(b: seq<byte>, pos: nat, p: Piece)
    requires p.Escaped? && Legal(p) && At(b, pos, Spelling(p))
    ensures StringStep(b, pos) == Ok((Some([p.c]), pos + |Spelling(p)|))
  {
    hide Hex4, HexDigit, SpellUnit, Utf16;
    var units := Utf16(p.c);
    UnitsJoin(p.c);
    if |units| == 1 {
      UnitAt(b, pos, units[0], p.upper);
    } else {
      AtConcat(b, pos, SpellUnit(units[0], p.upper[..4]), SpellUnit(units[1], p.upper[4..]));
      UnitAt(b, pos, units[0], p.upper[..4]);
      UnitAt(b, pos + 6, units[1], p.upper[4..]);
    }
  }

  lemma UnitFrom(b: seq<byte>, pos: nat) returns (unit: int, upper: seq<bool>)
    requires pos + 2 <= |b| && b[pos] == 92 && b[pos + 1] == 117 && Hex4(b, pos + 2, 0, 0).Ok?
    ensures 0 <= unit < 0x10000 && |upper| == 4 && At(b, pos, SpellUnit(unit, upper))
    ensures Hex4(b, pos + 2, 0, 0) == Ok((unit, pos + 6))
  {
    hide Hex4, HexDigit, UnitDigits;
    unit := Hex4(b, pos + 2, 0, 0).value.0;
    Hex4Exactly(b, pos + 2, 0);
    Hex4Exactly(b, pos + 2, unit);
    upper :| |upper| == 4 && b[pos + 2..pos + 6] == UnitDigits(unit, upper);
    assert b[pos..pos + 6] == [92, 117] + b[pos + 2..pos + 6];
  }

  // Every \u escape the reader accepts spells the units of the character it reads.
  lemma EscapedFrom(b: seq<byte>, pos: nat) returns (p: Piece)
    requires pos + 2 <= |b| && b[pos] == 92 && b[pos + 1] == 117 && StringStep(b, pos).Ok?
    ensures p.Escaped? && Legal(p) && At(b, pos, Spelling(p))
    ensures StringStep(b, pos) == Ok((Some([p.c]), pos + |Spelling(p)|))
  {
    hide Hex4, HexDigit, SpellUnit;
    var unit, upper := UnitFrom(b, pos);
    if HighSurrogate(unit) {
      var low, more := UnitFrom(b, pos + 6);
      var c := (0x10000 + (unit - 0xD800) * 1024 + (low - 0xDC00)) as char;
      assert Utf16(c) == [unit, low];
      p := Escaped(c, upper + more);
      assert p.upper[..4] == upper && p.upper[4..] == more;
      AtConcat(b, pos, SpellUnit(unit, upper), SpellUnit(low, more));
    } else {
      p := Escaped(unit as char, upper);
    }
  }

  /**
   Escapes, exactly. What a backslash and a u begin reads as a character if and
   only if it spells that character's UTF-16 code units in hexadecimal, in
   digits of either case. A surrogate on its own, or a low one first, spells no
   character, so it is refused.
   */
  lemma UnicodeEscapesExactly(b: seq<byte>, pos: nat, c: char, q: nat)
    requires pos + 2 <= |b| && b[pos] == 92 && b[pos + 1] == 117
    ensures StringStep(b, pos) == Ok((Some([c]), q))
       <==> exists upper :: Legal(Escaped(c, upper)) && At(b, pos, Spelling(Escaped(c, upper)))
                            && q == pos + |Spelling(Escaped(c, upper))|
    ensures StringStep(b, pos).Ok? ==>
              StringStep(b, pos).value.0.Some? && |StringStep(b, pos).value.0.value| == 1
  {
    hide StringStep, Spelling, Legal;
    if StringStep(b, pos).Ok? {
      var p := EscapedFrom(b, pos);
      assert p == Escaped(p.c, p.upper);
    }
    forall upper | Legal(Escaped(c, upper)) && At(b, pos, Spelling(Escaped(c, upper)))
      ensures StringStep(b, pos) == Ok((Some([c]), pos + |Spelling(Escaped(c, upper))|))
    {
      EscapedReads(b, pos, Escaped(c, upper));
    }
  }

  /** A low surrogate first, or a high one that no escaped low one follows, is refused. */
  lemma SurrogatesComeInPairs(b: seq<byte>, pos: nat, unit: int, upper: seq<bool>)
    requires 0 <= unit < 0x10000 && |upper| == 4 && At(b, pos, SpellUnit(unit, upper))
    ensures LowSurrogate(unit) ==> StringStep(b, pos).Err?
    ensures HighSurrogate(unit) ==>
              (StringStep(b, pos).Ok?
               <==> exists low, more :: LowSurrogate(low) && |more| == 4 && At(b, pos + 6, SpellUnit(low, more)))
  {
    hide Hex4, HexDigit, SpellUnit;
    UnitAt(b, pos, unit, upper);
    if HighSurrogate(unit) {
      if StringStep(b, pos).Ok? {
        var low, more := UnitFrom(b, pos + 6);
      }
      forall low, more | LowSurrogate(low) && |more| == 4 && At(b, pos + 6, SpellUnit(low, more))
        ensures StringStep(b, pos).Ok?
      {
        UnitAt(b, pos + 6, low, more);
      }
    }
  }

  // ----- any character -----

  lemma NothingStarts(x: seq<byte>)
    ensures x != [] && Utf8.Continuation(x[0]) ==> Utf8.Decode(x) == None
  {
  }

  // A run of bytes that ends where its continuations do decodes to one character at most.
  lemma OneCharacter(x: seq<byte>) returns (c: char)
    requires x != [] && Utf8.Decode(x).Some? && forall k :: 1 <= k < |x| ==> Utf8.Continuation(x[k])
    ensures Utf8.Decode(x) == Some([c]) && x == Utf8.EncodeChar(c)
  {
    var first := Utf8.DecodeFirst(x).value;
    c := first.0;
    Utf8.DecodedFirstEncodes(x);
    var rest := x[first.1..];
    NothingStarts(rest);
    assert rest == [] && Utf8.Decode(rest) == Some("");
    assert [c] + "" == [c];
    assert x[..first.1] == x;
  }

  lemma {:induction false} CharacterEndIs(b: seq<byte>, pos: nat)
    requires pos <= |b|
    ensures var end := CharacterEnd(b, pos);
            (forall k :: pos <= k < end ==> Utf8.Continuation(b[k])) && CharacterBoundary(b, end)
    decreases |b| - pos
  {
    if pos < |b| && Utf8.Continuation(b[pos]) {
      CharacterEndIs(b, pos + 1);
    }
  }

  lemma RawReads(b: seq<byte>, pos: nat, p: Piece)
    requires p.Raw? && Legal(p) && At(b, pos, Spelling(p)) && CharacterBoundary(b, pos + |Spelling(p)|)
    ensures StringStep(b, pos) == Ok((Some([p.c]), pos + |Spelling(p)|))
  {
    if p.c as int < 0x80 {
      AtByte(b, pos, Spelling(p), 0);
    } else {
      MultiByteReads(p.c, b, pos);
    }
  }

  lemma ShortReads(b: seq<byte>, pos: nat, p: Piece)
    requires p.Short? && Legal(p) && At(b, pos, Spelling(p))
    ensures StringStep(b, pos) == Ok((Some([p.c]), pos + 2))
  {
    AtByte(b, pos, Spelling(p), 0);
    AtByte(b, pos, Spelling(p), 1);
  }

  /** Any spelling of a character reads as that character. */
  lemma PieceReads(b: seq<byte>, pos: nat, p: Piece)
    requires Legal(p) && At(b, pos, Spelling(p)) && CharacterBoundary(b, pos + |Spelling(p)|)
    ensures StringStep(b, pos) == Ok((Some([p.c]), pos + |Spelling(p)|))
  {
    hide StringStep, Spelling, Legal;
    match p {
      case Raw(_) => RawReads(b, pos, p);
      case Short(_) => ShortLength(p); ShortReads(b, pos, p);
      case Escaped(_, _) => EscapedReads(b, pos, p);
    }
  }

  lemma ShortLength(p: Piece)
    requires p.Short? && Legal(p)
    ensures |Spelling(p)| == 2
  {
  }

  lemma RawFrom(b: seq<byte>, pos: nat) returns (p: Piece)
    requires pos < |b| && b[pos] != 34 && b[pos] != 92 && StringStep(b, pos).Ok?
    ensures p.Raw? && Legal(p) && At(b, pos, Spelling(p))
    ensures StringStep(b, pos) == Ok((Some([p.c]), pos + |Spelling(p)|))
  {
    if b[pos] < 0x80 {
      p := Raw(b[pos] as char);
      assert b[pos..pos + 1] == [b[pos]];
    } else {
      var end := CharacterEnd(b, pos + 1);
      CharacterEndIs(b, pos + 1);
      var x := b[pos..end];
      var c := OneCharacter(x);
      p := Raw(c);
      LeadIsLarge(c, b[pos]);
    }
  }

  lemma LeadIsLarge(c: char, lead: byte)
    requires Utf8.EncodeChar(c)[0] == lead >= 0x80
    ensures c as int >= 0x80
  {
  }

  lemma ShortFrom(b: seq<byte>, pos: nat) returns (p: Piece)
    requires pos + 2 <= |b| && b[pos] == 92 && b[pos + 1] != 117 && StringStep(b, pos).Ok?
    ensures p.Short? && Legal(p) && At(b, pos, Spelling(p))
    ensures StringStep(b, pos) == Ok((Some([p.c]), pos + |Spelling(p)|))
  {
    p := Short(StringStep(b, pos).value.0.value[0]);
    assert b[pos..pos + 2] == [b[pos], b[pos + 1]];
  }

  /** And whatever the reader takes inside a string, but the closing quote, is a spelling of one character. */
  lemma PieceFrom(b: seq<byte>, pos: nat) returns (p: Piece)
    requires pos < |b| && b[pos] != 34 && StringStep(b, pos).Ok?
    ensures Legal(p) && At(b, pos, Spelling(p))
    ensures StringStep(b, pos) == Ok((Some([p.c]), pos + |Spelling(p)|))
  {
    hide Spelling, Legal;
    if b[pos] != 92 {
      p := RawFrom(b, pos);
    } else {
      EscapeFollows(b, pos);
      if b[pos + 1] == 117 {
        p := EscapedFrom(b, pos);
      } else {
        p := ShortFrom(b, pos);
      }
    }
  }

  lemma EscapeFollows(b: seq<byte>, pos: nat)
    requires pos < |b| && b[pos] == 92 && StringStep(b, pos).Ok?
    ensures pos + 2 <= |b|
  {
  }

  // ----- whole strings -----

  predicate AllLegal(pieces: seq<Piece>) {
    forall i :: 0 <= i < |pieces| ==> Legal(pieces[i])
  }

  function Spellings(pieces: seq<Piece>): seq<byte>
    requires AllLegal(pieces)
  {
    if pieces == [] then [] else Spelling(pieces[0]) + Spellings(pieces[1..])
  }

  function Text(pieces: seq<Piece>): (s: string)
    ensures |s| == |pieces|
  {
    seq(|pieces|, i requires 0 <= i < |pieces| => pieces[i].c)
  }

  // The bytes of a string between its quotes, quotes included.
  function Quoted(pieces: seq<Piece>): seq<byte>
    requires AllLegal(pieces)
  {
    [34] + Spellings(pieces) + [34]
  }

  lemma SpellingStarts(p: Piece)
    requires Legal(p)
    ensures !Utf8.Continuation(Spelling(p)[0]) && Spelling(p)[0] != 34
  {
    hide HexDigit;
  }

  lemma SpellingsStart(b: seq<byte>, pos: nat, pieces: seq<Piece>)
    requires AllLegal(pieces) && At(b, pos, Spellings(pieces) + [34])
    ensures CharacterBoundary(b, pos)
  {
    hide Spelling, Legal;
    AtByte(b, pos, Spellings(pieces) + [34], 0);
    if pieces != [] {
      SpellingStarts(pieces[0]);
      assert (Spellings(pieces) + [34])[0] == Spelling(pieces[0])[0];
    }
  }

  lemma {:induction false} SpellingsRead(b: seq<byte>, pos: nat, pieces: seq<Piece>, out: string)
    requires AllLegal(pieces) && At(b, pos, Spellings(pieces) + [34])
    ensures StringRest(b, pos, out) == Ok((out + Text(pieces), pos + |Spellings(pieces)| + 1))
    decreases |pieces|
  {
    hide StringStep, Spelling, Legal, At;
    if pieces == [] {
      AtQuote(b, pos);
      ClosingQuote(b, pos);
      assert out + Text(pieces) == out;
    } else {
      var p, rest := pieces[0], pieces[1..];
      var next := pos + |Spelling(p)|;
      assert Spellings(pieces) + [34] == Spelling(p) + (Spellings(rest) + [34]);
      AtConcat(b, pos, Spelling(p), Spellings(rest) + [34]);
      SpellingsStart(b, next, rest);
      PieceReads(b, pos, p);
      SpellingsRead(b, next, rest, out + [p.c]);
      assert out + Text(pieces) == (out + [p.c]) + Text(rest);
      NextWithin(b, next, Spellings(rest) + [34]);
    }
  }

  lemma NextWithin(b: seq<byte>, pos: nat, x: seq<byte>)
    requires At(b, pos, x)
    ensures pos + |x| <= |b|
  {
  }

  lemma AtQuote(b: seq<byte>, pos: nat)
    requires At(b, pos, [] + [34])
    ensures Looking(b, pos, 34)
  {
    AtByte(b, pos, [] + [34], 0);
  }

  lemma {:induction false} SpellingsFrom(b: seq<byte>, pos: nat, out: string) returns (pieces: seq<Piece>)
    requires pos <= |b| && StringRest(b, pos, out).Ok?
    ensures AllLegal(pieces) && At(b, pos, Spellings(pieces) + [34])
    ensures StringRest(b, pos, out) == Ok((out + Text(pieces), pos + |Spellings(pieces)| + 1))
    decreases |b| - pos
  {
    hide StringStep, Spelling, Legal, At;
    StepIsThere(b, pos, out);
    if b[pos] == 34 {
      pieces := [];
      ClosingQuote(b, pos);
      QuoteAt(b, pos);
      assert out + Text(pieces) == out;
    } else {
      var p := PieceFrom(b, pos);
      var next := pos + |Spelling(p)|;
      var rest := SpellingsFrom(b, next, out + [p.c]);
      pieces := [p] + rest;
      assert pieces[1..] == rest;
      assert Spellings(pieces) + [34] == Spelling(p) + (Spellings(rest) + [34]);
      AtConcat(b, pos, Spelling(p), Spellings(rest) + [34]);
      assert out + Text(pieces) == (out + [p.c]) + Text(rest);
    }
  }

  lemma StepIsThere(b: seq<byte>, pos: nat, out: string)
    requires pos <= |b| && StringRest(b, pos, out).Ok?
    ensures pos < |b| && StringStep(b, pos).Ok?
  {
  }

  lemma QuoteAt(b: seq<byte>, pos: nat)
    requires Looking(b, pos, 34)
    ensures At(b, pos, [] + [34])
  {
  }

  /**
   Strings, exactly. The reader takes these bytes for this string if and only if
   they are quotes around spellings of its characters, each as itself, by a
   short escape or by its code units, however these are mixed.
   */
  lemma StringsExactly(b: seq<byte>, pos: nat, s: string, end: nat)
    requires pos <= |b|
    ensures StringAt(b, pos) == Ok((s, end))
       <==> exists pieces :: AllLegal(pieces) && At(b, pos, Quoted(pieces)) && s == Text(pieces)
                             && end == pos + |Quoted(pieces)|
  {
    hide StringRest, AllLegal, At, Spellings, Text;
    if StringAt(b, pos) == Ok((s, end)) {
      var pieces := SpellingsFrom(b, pos + 1, "");
      QuoteAt(b, pos);
      QuotedAt(b, pos, pieces);
      assert "" + Text(pieces) == Text(pieces);
    }
    forall pieces | AllLegal(pieces) && At(b, pos, Quoted(pieces))
      ensures StringAt(b, pos) == Ok((Text(pieces), pos + |Quoted(pieces)|))
    {
      QuotedAt(b, pos, pieces);
      AtQuote(b, pos);
      SpellingsRead(b, pos + 1, pieces, "");
      assert "" + Text(pieces) == Text(pieces);
    }
  }

  lemma QuotedAt(b: seq<byte>, pos: nat, pieces: seq<Piece>)
    requires AllLegal(pieces)
    ensures At(b, pos, Quoted(pieces)) <==> At(b, pos, [] + [34]) && At(b, pos + 1, Spellings(pieces) + [34])
  {
    hide At, AllLegal, Spellings;
    assert Quoted(pieces) == ([] + [34]) + (Spellings(pieces) + [34]);
    AtConcat(b, pos, [] + [34], Spellings(pieces) + [34]);
  }
}
