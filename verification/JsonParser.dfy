/**
 The recursive-descent parser, as an object that advances through the bytes.
 Every method is proved against the grammar: it returns what the grammar says
 for the position it was called at and, when it succeeds, leaves the position
 after what it read and the depth as it found it.
 */
module JsonParser {
  import opened Wrappers
  import opened Bytes
  import opened JsonValue
  import opened JsonGrammar
  import Decimal
  import Utf8

  // What a read yields, without the position after it.
  function Outcome<T>(r: Read<T>): Result<T, JsonError> {
    match r
    case Ok((v, _)) => Ok(v)
    case Err(e) => Err(e)
  }

  class Parser {
    const bytes: seq<byte>
    var position: nat
    var depth: nat

    predicate Valid()
      reads this
    {
      position <= |bytes|
    }

    constructor (input: string)
      ensures bytes == Utf8.Encode(input) && position == 0 && depth == 0
    {
      bytes := Utf8.Encode(input);
      position := 0;
      depth := 0;
    }

    function Peek(): Option<byte>
      reads this
    {
      if position < |bytes| then Some(bytes[position]) else None
    }

    method Bump() returns (r: Option<byte>)
      requires Valid()
      modifies this`position
      ensures r == old(Peek())
      ensures position == if r.Some? then old(position) + 1 else old(position)
    {
      r := Peek();
      if r.Some? {
        position := position + 1;
      }
    }

    method ExpectByte(c: byte) returns (r: Result<(), JsonError>)
      requires Valid()
      modifies this`position
      ensures Valid()
      ensures r.Ok? <==> JsonGrammar.Expect(bytes, old(position), c).Ok?
      ensures r.Ok? ==> position == old(position) + 1
      ensures r.Err? ==> Result<nat, JsonError>.Err(r.error) == JsonGrammar.Expect(bytes, old(position), c)
    {
      var found := Bump();
      if found == Some(c) {
        return Ok(());
      } else if found.Some? {
        return Err(Unexpected(position - 1));
      } else {
        return Err(UnexpectedEnd);
      }
    }

    method SkipWhitespace()
      requires Valid()
      modifies this`position
      ensures Valid() && position == SkipBlanks(bytes, old(position))
    {
      while position < |bytes| && Blank(bytes[position])
        invariant Valid() && old(position) <= position
        invariant SkipBlanks(bytes, old(position)) == SkipBlanks(bytes, position)
      {
        position := position + 1;
      }
    }

    method LiteralWord(word: seq<byte>, value: Value) returns (r: Result<Value, JsonError>)
      requires Valid()
      modifies this`position
      ensures Valid()
      ensures r == Outcome(Literal(bytes, old(position), word, value))
      ensures r.Ok? ==> position == old(position) + |word|
    {
      if word <= bytes[position..] {
        position := position + |word|;
        return Ok(value);
      } else {
        return Err(Unexpected(position));
      }
    }

    method Enter() returns (r: Result<(), JsonError>)
      modifies this`depth
      ensures depth == old(depth) + 1
      ensures r == if depth > MAX_DEPTH then Err(TooDeep) else Ok(())
    {
      depth := depth + 1;
      if depth > MAX_DEPTH {
        return Err(TooDeep);
      }
      r := Ok(());
    }

    // ----- strings -----

    method HexFour() returns (r: Result<nat, JsonError>)
      requires Valid()
      modifies this`position
      ensures Valid()
      ensures r == Outcome(Hex4(bytes, old(position), 0, 0))
      ensures r.Ok? ==> position == old(position) + 4
    {
      var start := position;
      var value: nat := 0;
      for k := 0 to 4
        invariant Valid() && position == start + k
        invariant Hex4(bytes, start, 0, 0) == Hex4(bytes, start, k, value)
      {
        var c := Bump();
        if c.None? {
          return Err(UnexpectedEnd);
        }
        var digit := HexValue(c.value);
        if digit.None? {
          return Err(Unexpected(start));
        }
        value := value * 16 + digit.value;
      }
      r := Ok(value);
    }

    method ReadUnicodeEscape() returns (r: Result<char, JsonError>)
      requires Valid()
      modifies this`position
      ensures Valid()
      ensures r == Outcome(UnicodeEscape(bytes, old(position)))
      ensures r.Ok? ==> position == UnicodeEscape(bytes, old(position)).value.1
    {
      var first := HexFour();
      if first.Err? {
        return Err(first.error);
      }
      if 0xDC00 <= first.value <= 0xDFFF {
        return Err(Unexpected(position));
      }
      if 0xD800 <= first.value <= 0xDBFF {
        var start := position;
        var backslash := Bump();
        if backslash != Some(92) {
          return Err(Unexpected(start));
        }
        var u := Bump();
        if u != Some(117) {
          return Err(Unexpected(start));
        }
        var second := HexFour();
        if second.Err? {
          return Err(second.error);
        }
        if !(0xDC00 <= second.value <= 0xDFFF) {
          return Err(Unexpected(start));
        }
        return Ok((0x10000 + (first.value - 0xD800) * 1024 + (second.value - 0xDC00)) as char);
      }
      if first.value < 0xD800 || 0xE000 <= first.value < 0x10000 {
        return Ok(first.value as char);
      }
      return Err(Unexpected(position));
    }

    method ReadEscape() returns (r: Result<char, JsonError>)
      requires Valid()
      modifies this`position
      ensures Valid()
      ensures r == Outcome(Escape(bytes, old(position)))
      ensures r.Ok? ==> position == Escape(bytes, old(position)).value.1
    {
      var start := position;
      var c := Bump();
      if c.None? {
        return Err(UnexpectedEnd);
      }
      match c.value
      case 34 => r := Ok('"');
      case 92 => r := Ok('\\');
      case 47 => r := Ok('/');
      case 98 => r := Ok('\U{8}');
      case 102 => r := Ok('\U{c}');
      case 110 => r := Ok('\n');
      case 114 => r := Ok('\r');
      case 116 => r := Ok('\t');
      case 117 => r := ReadUnicodeEscape();
      case _ => r := Err(Unexpected(start));
    }

    method ReadString() returns (r: Result<string, JsonError>)
      requires Valid()
      modifies this`position
      ensures Valid()
      ensures r == Outcome(StringAt(bytes, old(position)))
      ensures r.Ok? ==> position == StringAt(bytes, old(position)).value.1
    {
      var opening := ExpectByte(34);
      if opening.Err? {
        return Err(opening.error);
      }
      var out: string := "";
      while true
        invariant Valid() && old(position) < position
        invariant StringAt(bytes, old(position)) == StringRest(bytes, position, out)
        decreases |bytes| - position
      {
        hide UnicodeEscape, Utf8.Decode;
        var start := position;
        var c := Bump();
        if c.None? {
          return Err(UnexpectedEnd);
        }
        if c.value == 34 {
          return Ok(out);
        } else if c.value == 92 {
          var escaped := ReadEscape();
          if escaped.Err? {
            return Err(escaped.error);
          }
          out := out + [escaped.value];
        } else if c.value < 0x20 {
          return Err(Unexpected(start));
        } else if c.value < 0x80 {
          out := out + [c.value as char];
        } else {
          var end := position;
          while end < |bytes| && Utf8.Continuation(bytes[end])
            invariant position <= end <= |bytes|
            invariant CharacterEnd(bytes, position) == CharacterEnd(bytes, end)
          {
            end := end + 1;
          }
          var text := Utf8.Decode(bytes[start..end]);
          if text.None? {
            return Err(Unexpected(start));
          }
          out := out + text.value;
          position := end;
        }
      }
    }

    // ----- numbers -----

    method Digits()
      requires Valid()
      modifies this`position
      ensures Valid() && position == SkipDigits(bytes, old(position))
    {
      while position < |bytes| && Decimal.IsDigit(bytes[position])
        invariant Valid() && old(position) <= position
        invariant SkipDigits(bytes, old(position)) == SkipDigits(bytes, position)
      {
        position := position + 1;
      }
    }

    // The digits that a point or an exponent must be followed by.
    method RequireDigits() returns (r: Result<(), JsonError>)
      requires Valid()
      modifies this`position
      ensures Valid()
      ensures r.Ok? <==> SomeDigits(bytes, old(position)).Ok?
      ensures r.Ok? ==> position == SomeDigits(bytes, old(position)).value
      ensures r.Err? ==> Result<nat, JsonError>.Err(r.error) == SomeDigits(bytes, old(position))
    {
      if !Digit(bytes, position) {
        return Err(Unexpected(position));
      }
      Digits();
      r := Ok(());
    }

    // Whether there was a fraction; the position is past it.
    method ReadFraction() returns (r: Result<bool, JsonError>)
      requires Valid()
      modifies this`position
      ensures Valid()
      ensures r.Ok? <==> Fraction(bytes, old(position)).Ok?
      ensures r.Ok? ==> position == Fraction(bytes, old(position)).value && r.value == (position != old(position))
      ensures r.Err? ==> Result<nat, JsonError>.Err(r.error) == Fraction(bytes, old(position))
    {
      if Peek() != Some(46) {
        return Ok(false);
      }
      position := position + 1;
      var digits := RequireDigits();
      r := match digits case Ok(_) => Ok(true) case Err(e) => Err(e);
    }

    method ReadExponent() returns (r: Result<bool, JsonError>)
      requires Valid()
      modifies this`position
      ensures Valid()
      ensures r.Ok? <==> Exponent(bytes, old(position)).Ok?
      ensures r.Ok? ==> position == Exponent(bytes, old(position)).value && r.value == (position != old(position))
      ensures r.Err? ==> Result<nat, JsonError>.Err(r.error) == Exponent(bytes, old(position))
    {
      if Peek() != Some(101) && Peek() != Some(69) {
        return Ok(false);
      }
      position := position + 1;
      if Peek() == Some(43) || Peek() == Some(45) {
        position := position + 1;
      }
      var digits := RequireDigits();
      r := match digits case Ok(_) => Ok(true) case Err(e) => Err(e);
    }

    method Number() returns (r: Result<Value, JsonError>)
      requires Valid()
      modifies this`position
      ensures Valid()
      ensures r == Outcome(NumberAt(bytes, old(position)))
      ensures r.Ok? ==> position == NumberAt(bytes, old(position)).value.1
    {
      hide Fraction, Exponent, Decimal.Value;
      var start := position;
      var negative := Peek() == Some(45);
      if negative {
        position := position + 1;
      }
      var digits := position;
      if Peek() == Some(48) {
        position := position + 1;
      } else if Digit(bytes, position) {
        Digits();
      } else {
        return Err(Unexpected(position));
      }
      var whole := position;
      assert WholePart(bytes, digits) == Ok(whole);
      hide WholePart;
      var fraction := ReadFraction();
      if fraction.Err? {
        return Err(fraction.error);
      }
      var exponent := ReadExponent();
      if exponent.Err? {
        return Err(exponent.error);
      }
      if fraction.value || exponent.value {
        return Ok(Float(bytes[start..position]));
      }
      var i := Signed(negative, Decimal.Value(bytes[digits..whole]));
      if -0x8000_0000_0000_0000 <= i < 0x8000_0000_0000_0000 {
        return Ok(Int(i));
      }
      return Ok(Float(bytes[start..position]));
    }

    // ----- values -----

    method ReadValue() returns (r: Result<Value, JsonError>)
      requires Valid()
      modifies this
      ensures Valid()
      ensures r == Outcome(ValueAt(bytes, old(position), old(depth)))
      ensures r.Ok? ==> position == ValueAt(bytes, old(position), old(depth)).value.1 && depth == old(depth)
      decreases |bytes| - position, 2
    {
      hide StringAt, NumberAt, ArrayAt, ObjectAt;
      if position == |bytes| {
        return Err(UnexpectedEnd);
      }
      var c := bytes[position];
      if c == 110 {
        r := LiteralWord(NULL, Null);
      } else if c == 116 {
        r := LiteralWord(TRUE, Bool(true));
      } else if c == 102 {
        r := LiteralWord(FALSE, Bool(false));
      } else if c == 34 {
        var s := ReadString();
        r := match s case Ok(text) => Ok(String(text)) case Err(e) => Err(e);
      } else if c == 91 {
        r := ReadArray();
      } else if c == 123 {
        r := ReadObject();
      } else if c == 45 || Decimal.IsDigit(c) {
        r := Number();
      } else {
        r := Err(Unexpected(position));
      }
    }

    method ReadArray() returns (r: Result<Value, JsonError>)
      requires Valid()
      modifies this
      ensures Valid()
      ensures r == Outcome(ArrayAt(bytes, old(position), old(depth)))
      ensures r.Ok? ==> position == ArrayAt(bytes, old(position), old(depth)).value.1 && depth == old(depth)
      decreases |bytes| - position, 1
    {
      hide ValueAt;
      var entered := Enter();
      if entered.Err? {
        return Err(entered.error);
      }
      var opening := ExpectByte(91);
      if opening.Err? {
        return Err(opening.error);
      }
      var items: seq<Value> := [];
      SkipWhitespace();
      if Peek() == Some(93) {
        position := position + 1;
        depth := depth - 1;
        return Ok(Array(items));
      }
      while true
        invariant Valid() && old(position) < position && depth == old(depth) + 1
        invariant ArrayAt(bytes, old(position), old(depth)) == ItemsAt(bytes, position, depth, items)
        decreases |bytes| - position
      {
        SkipWhitespace();
        var item := ReadValue();
        if item.Err? {
          return Err(item.error);
        }
        SkipWhitespace();
        var c := Bump();
        if c.None? {
          return Err(UnexpectedEnd);
        }
        if c.value != 44 && c.value != 93 {
          return Err(Unexpected(position - 1));
        }
        items := items + [item.value];
        if c.value == 93 {
          break;
        }
      }
      depth := depth - 1;
      r := Ok(Array(items));
    }

    // A field name not seen before, the colon, and the blanks around it.
    method ReadName(fields: seq<(string, Value)>) returns (r: Result<string, JsonError>)
      requires Valid()
      modifies this`position
      ensures Valid()
      ensures r == Outcome(NameAt(bytes, old(position), fields))
      ensures r.Ok? ==> position == NameAt(bytes, old(position), fields).value.1
    {
      hide StringAt;
      if Peek() != Some(34) {
        return Err(Unexpected(position));
      }
      var name := ReadString();
      if name.Err? {
        return Err(name.error);
      }
      if Named(fields, name.value) {
        return Err(DuplicateKey(name.value));
      }
      SkipWhitespace();
      var colon := ExpectByte(58);
      if colon.Err? {
        return Err(colon.error);
      }
      SkipWhitespace();
      r := name;
    }

    method ReadObject() returns (r: Result<Value, JsonError>)
      requires Valid()
      modifies this
      ensures Valid()
      ensures r == Outcome(ObjectAt(bytes, old(position), old(depth)))
      ensures r.Ok? ==> position == ObjectAt(bytes, old(position), old(depth)).value.1 && depth == old(depth)
      decreases |bytes| - position, 1
    {
      hide ValueAt, NameAt, SkipBlanks, Named;
      ghost var answer := ObjectAt(bytes, position, depth);
      var entered := Enter();
      if entered.Err? {
        return Err(entered.error);
      }
      var opening := ExpectByte(123);
      if opening.Err? {
        return Err(opening.error);
      }
      var fields: seq<(string, Value)> := [];
      SkipWhitespace();
      if Peek() == Some(125) {
        position := position + 1;
        depth := depth - 1;
        return Ok(Object(fields));
      }
      hide ObjectAt;
      while true
        invariant Valid() && old(position) < position && depth == old(depth) + 1
        invariant FieldsAt(bytes, position, depth, fields) == answer
        decreases |bytes| - position
      {
        SkipWhitespace();
        var name := ReadName(fields);
        if name.Err? {
          return Err(name.error);
        }
        var value := ReadValue();
        if value.Err? {
          return Err(value.error);
        }
        fields := fields + [(name.value, value.value)];
        SkipWhitespace();
        var c := Bump();
        if c.None? {
          return Err(UnexpectedEnd);
        }
        if c.value != 44 && c.value != 125 {
          return Err(Unexpected(position - 1));
        }
        if c.value == 125 {
          break;
        }
      }
      depth := depth - 1;
      r := Ok(Object(fields));
    }
  }

  /** Parse a complete document. */
  method ParseDocument(input: string) returns (r: Result<Value, JsonError>)
    ensures r == Parse(input)
  {
    hide ValueAt;
    var parser := new Parser(input);
    parser.SkipWhitespace();
    if parser.position == |parser.bytes| {
      return Err(UnexpectedEnd);
    }
    var value := parser.ReadValue();
    if value.Err? {
      return Err(value.error);
    }
    parser.SkipWhitespace();
    if parser.position != |parser.bytes| {
      return Err(TrailingContent);
    }
    r := Ok(value.value);
  }
}
