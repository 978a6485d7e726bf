/** The printed form of an unseal share, and reading it back. */
module ShareText {
  import opened Wrappers
  import opened Bytes
  import opened Shamir
  import opened Text
  import Base64
  import Hex
  import Decimal
  import Utf8

  // The first four bytes of a digest over the index and the data.
  type Checksum = f: (bv8, seq<bv8>) -> seq<byte> | forall i, d :: |f(i, d)| == 4
    witness (i: bv8, d: seq<bv8>) => [0, 0, 0, 0]

  const SHARE_PREFIX := "lss1"

  function Print(share: Share, checksum: Checksum): string {
    SHARE_PREFIX + "." + Decimal.Render(Octet(share.index)) + "." + Base64.EncodeBytes(ToBytes(share.data))
    + "." + Hex.EncodeBytes(checksum(share.index, share.data))
  }

  // An unsigned eight-bit number: digits, optionally behind a plus sign.
  function ParseU8(text: string): (r: Option<nat>)
    ensures r.Some? ==> r.value < 256
  {
    var b := Utf8.Encode(text);
    var digits := if |b| > 0 && b[0] == 43 then b[1..] else b;
    if digits == [] || !Decimal.AllDigits(digits) then None
    else if Decimal.Value(digits) < 256 then Some(Decimal.Value(digits)) else None
  }

  function Parse(printed: string, checksum: Checksum): Result<Share, ShamirError> {
    var parts := SplitAt(Trim(printed), '.');
    if |parts| != 4 || parts[0] != SHARE_PREFIX then Err(MalformedShare)
    else
      match ParseU8(parts[1])
      case None => Err(MalformedShare)
      case Some(index) =>
        if index == 0 then Err(MalformedShare)
        else
          match Base64.DecodeText(parts[2])
          case None => Err(MalformedShare)
          case Some(data) =>
            if data == [] then Err(MalformedShare)
            else
              match Hex.DecodeText(parts[3])
              case None => Err(MalformedShare)
              case Some(supplied) =>
                if |supplied| != 4 then Err(MalformedShare)
                else if supplied != checksum(Element(index), FromBytes(data)) then Err(ChecksumMismatch)
                else Ok(Share(Element(index), FromBytes(data)))
  }

  // ----- what the pieces are made of -----

  predicate Plain(s: string) {
    forall i :: 0 <= i < |s| ==> s[i] != '.' && !IsWhitespace(s[i])
  }

  lemma PlainLetter(v: int)
    requires 0 <= v < 64
    ensures Base64.Letter(v) != '.' && !IsWhitespace(Base64.Letter(v))
    ensures v < 16 ==> Hex.Digit(v) != '.' && !IsWhitespace(Hex.Digit(v))
    ensures v < 10 ==> Decimal.Digit(v) != '.' && !IsWhitespace(Decimal.Digit(v))
  {
  }

  lemma {:induction false} HexPlain(b: seq<byte>)
    ensures Plain(Hex.EncodeBytes(b))
  {
    if b != [] {
      hide IsWhitespace, Hex.Digit;
      PlainLetter(b[0] / 16);
      PlainLetter(b[0] % 16);
      HexPlain(b[1..]);
    }
  }

  lemma {:induction false} DecimalPlain(n: nat)
    ensures Plain(Decimal.Render(n))
    decreases n
  {
    hide IsWhitespace, Decimal.Digit;
    PlainLetter(n % 10);
    if n >= 10 {
      DecimalPlain(n / 10);
    }
  }

  lemma GroupPlain(chunk: seq<byte>)
    requires 1 <= |chunk| <= 3
    ensures Plain(Base64.EncodeGroup(chunk))
  {
    hide IsWhitespace, Base64.Letter;
    var b1, b2 := if |chunk| > 1 then chunk[1] else 0, if |chunk| > 2 then chunk[2] else 0;
    var bits := Base64.Bits8(chunk[0], b1, b2);
    Base64.Regroup(chunk[0], b1, b2);
    PlainLetter(bits / 64 / 64 / 64);
    PlainLetter(bits / 64 / 64 % 64);
    PlainLetter(bits / 64 % 64);
    PlainLetter(bits % 64);
  }

  lemma {:induction false} Base64Plain(b: seq<byte>)
    ensures Plain(Base64.EncodeBytes(b))
  {
    hide IsWhitespace, Base64.EncodeGroup;
    if b == [] {
    } else if |b| <= 3 {
      GroupPlain(b);
    } else {
      GroupPlain(b[..3]);
      Base64Plain(b[3..]);
    }
  }

  lemma RenderedU8(n: nat)
    requires n < 256
    ensures ParseU8(Decimal.Render(n)) == Some(n)
  {
    Decimal.RenderReadsBack(n);
  }

  lemma FourParts(a: string, b: string, c: string, d: string)
    requires Plain(a) && Plain(b) && Plain(c) && Plain(d) && a != "" && d != ""
    ensures SplitAt(Trim(a + "." + b + "." + c + "." + d), '.') == [a, b, c, d]
  {
    hide SplitAt, IsWhitespace, Trim;
    var s := a + "." + b + "." + c + "." + d;
    assert s[0] == a[0] && s[|s| - 1] == d[|d| - 1];
    TrimKeeps(s);
    NoDots(a, b, c, d);
    assert s == a + ['.'] + (b + ['.'] + (c + ['.'] + d));
    SplitPiece(a, '.', b + ['.'] + (c + ['.'] + d));
    SplitPiece(b, '.', c + ['.'] + d);
    SplitPiece(c, '.', d);
    SplitWhole(d, '.');
  }

  lemma NoDots(a: string, b: string, c: string, d: string)
    requires Plain(a) && Plain(b) && Plain(c) && Plain(d)
    ensures '.' !in a && '.' !in b && '.' !in c && '.' !in d
  {
  }

  lemma PrintedParts(share: Share, checksum: Checksum)
    ensures SplitAt(Trim(Print(share, checksum)), '.')
         == [SHARE_PREFIX, Decimal.Render(Octet(share.index)), Base64.EncodeBytes(ToBytes(share.data)),
             Hex.EncodeBytes(checksum(share.index, share.data))]
  {
    hide SplitAt, Trim, Plain;
    DecimalPlain(Octet(share.index));
    Base64Plain(ToBytes(share.data));
    HexPlain(checksum(share.index, share.data));
    PrefixPlain();
    assert |Hex.EncodeBytes(checksum(share.index, share.data))| == 8;
    FourParts(SHARE_PREFIX, Decimal.Render(Octet(share.index)), Base64.EncodeBytes(ToBytes(share.data)),
              Hex.EncodeBytes(checksum(share.index, share.data)));
  }

  lemma PrefixPlain()
    ensures Plain(SHARE_PREFIX) && SHARE_PREFIX != ""
  {
  }

  /** A printed share parses back to itself exactly when it could have been handed out. */
  lemma PrintParse(share: Share, checksum: Checksum)
    ensures Parse(Print(share, checksum), checksum) == Ok(share) <==> share.index != 0 && share.data != []
  {
    hide SplitAt, Trim, Octet, Element, Print;
    PrintedParts(share, checksum);
    RenderedU8(Octet(share.index));
    OctetRoundTrip(share.index);
    BytesRoundTrip(share.data);
    Base64.RoundTrip(ToBytes(share.data));
    Hex.RoundTrip(checksum(share.index, share.data));
    ZeroIndex(share.index);
  }

  lemma ZeroIndex(index: bv8)
    ensures Octet(index) == 0 <==> index == 0
  {
  }

  /** Whatever text is accepted, the share read has a nonzero index and data to go with it. */
  lemma ParsedShareIsUsable(printed: string, checksum: Checksum)
    requires Parse(printed, checksum).Ok?
    ensures Parse(printed, checksum).value.index != 0 && Parse(printed, checksum).value.data != []
    ensures Parse(Print(Parse(printed, checksum).value, checksum), checksum) == Parse(printed, checksum)
  {
    hide SplitAt, Trim, Octet, Element, Print;
    var share := Parse(printed, checksum).value;
    var index := ParseU8(SplitAt(Trim(printed), '.')[1]).value;
    ElementRoundTrip(index);
    ZeroIndex(Element(index));
    PrintParse(share, checksum);
  }

  /** What is accepted carries the checksum of the very share read: its fourth part spells it. */
  lemma ParsedCarriesChecksum(printed: string, checksum: Checksum)
    requires Parse(printed, checksum).Ok?
    ensures var parts, share := SplitAt(Trim(printed), '.'), Parse(printed, checksum).value;
            && |parts| == 4 && parts[0] == SHARE_PREFIX && ParseU8(parts[1]) == Some(Octet(share.index))
            && Base64.DecodeText(parts[2]) == Some(ToBytes(share.data))
            && Hex.DecodeText(parts[3]) == Some(checksum(share.index, share.data))
  {
    hide SplitAt, Trim, Octet, Element, ParseU8, FromBytes, ToBytes;
    var parts := SplitAt(Trim(printed), '.');
    ElementRoundTrip(ParseU8(parts[1]).value);
    ElementsRoundTrip(Base64.DecodeText(parts[2]).value);
  }

  /** And a usable share printed with any other checksum is refused for that. */
  lemma OtherChecksumRefused(share: Share, checksum: Checksum, other: Checksum)
    requires share.index != 0 && share.data != [] && other(share.index, share.data) != checksum(share.index, share.data)
    ensures Parse(Print(share, other), checksum) == Err(ChecksumMismatch)
  {
    hide SplitAt, Trim, Octet, Element, Print;
    PrintedParts(share, other);
    RenderedU8(Octet(share.index));
    OctetRoundTrip(share.index);
    BytesRoundTrip(share.data);
    Base64.RoundTrip(ToBytes(share.data));
    Hex.RoundTrip(other(share.index, share.data));
    ZeroIndex(share.index);
  }

  /** Whitespace around a share is not part of it. */
  lemma PaddingIgnored(p: string, printed: string, q: string, checksum: Checksum)
    requires AllWhitespace(p) && AllWhitespace(q)
    ensures Parse(p + printed + q, checksum) == Parse(printed, checksum)
  {
    hide AllWhitespace, Trim, SplitAt;
    TrimPadded(p, printed, q);
  }
}
