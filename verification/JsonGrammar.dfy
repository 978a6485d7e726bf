/**
 What the strict JSON reader accepts and returns, as a function of the bytes,
 the position and the nesting so far. Offsets in errors are byte offsets.
 */
module JsonGrammar {
  import opened Wrappers
  import opened Bytes
  import opened JsonValue
  import Decimal
  import Utf8

  const MAX_DEPTH := 64

  datatype JsonError =
    | UnexpectedEnd
    | Unexpected(at: nat)
    | TrailingContent
    | DuplicateKey(name: string)
    | TooDeep

  // A value and the position after it.
  type Read<T> = Result<(T, nat), JsonError>

  predicate Digit(b: seq<byte>, pos: nat) {
    pos < |b| && Decimal.IsDigit(b[pos])
  }

  predicate Looking(b: seq<byte>, pos: nat, c: byte) {
    pos < |b| && b[pos] == c
  }

  predicate Blank(c: byte) {
    c == 32 || c == 9 || c == 10 || c == 13
  }

  function SkipBlanks(b: seq<byte>, pos: nat): (p: nat)
    requires pos <= |b|
    ensures pos <= p <= |b|
    decreases |b| - pos
  {
    if pos < |b| && Blank(b[pos]) then SkipBlanks(b, pos + 1) else pos
  }

  function SkipDigits(b: seq<byte>, pos: nat): (p: nat)
    requires pos <= |b|
    ensures pos <= p <= |b|
    ensures forall k :: pos <= k < p ==> Decimal.IsDigit(b[k])
    decreases |b| - pos
  {
    if Digit(b, pos) then SkipDigits(b, pos + 1) else pos
  }

  function Literal(b: seq<byte>, pos: nat, word: seq<byte>, value: Value): (r: Read<Value>)
    requires pos <= |b|
    ensures r.Ok? ==> r.value.1 == pos + |word| <= |b|
  {
    if word <= b[pos..] then Ok((value, pos + |word|)) else Err(Unexpected(pos))
  }

  // ----- strings -----

  function HexValue(c: byte): Option<nat> {
    if 48 <= c <= 57 then Some(c - 48)
    else if 97 <= c <= 102 then Some(c - 97 + 10)
    else if 65 <= c <= 70 then Some(c - 65 + 10)
    else None
  }

  // Digits `done` to four of a \u escape whose first digit is at `start`.
  function Hex4(b: seq<byte>, start: nat, done: nat, value: nat): (r: Read<nat>)
    requires start + done <= |b| && done <= 4
    ensures r.Ok? ==> r.value.1 == start + 4 <= |b|
    decreases 4 - done
  {
    if done == 4 then Ok((value, start + 4))
    else if start + done == |b| then Err(UnexpectedEnd)
    else
      match HexValue(b[start + done])
      case None => Err(Unexpected(start))
      case Some(digit) => Hex4(b, start, done + 1, value * 16 + digit)
  }

  function UnicodeEscape(b: seq<byte>, pos: nat): (r: Read<char>)
    requires pos <= |b|
    ensures r.Ok? ==> pos < r.value.1 <= |b|
  {
    match Hex4(b, pos, 0, 0)
    case Err(e) => Err(e)
    case Ok((first, p)) =>
      if 0xDC00 <= first <= 0xDFFF then Err(Unexpected(p))
      else if 0xD800 <= first <= 0xDBFF then
        if !Looking(b, p, 92) || !Looking(b, p + 1, 117) then Err(Unexpected(p))
        else
          match Hex4(b, p + 2, 0, 0)
          case Err(e) => Err(e)
          case Ok((second, q)) =>
            if !(0xDC00 <= second <= 0xDFFF) then Err(Unexpected(p))
            else Ok(((0x10000 + (first - 0xD800) * 1024 + (second - 0xDC00)) as char, q))
      else if first < 0xD800 || 0xE000 <= first < 0x10000 then Ok((first as char, p))
      else Err(Unexpected(p))
  }

  function Escape(b: seq<byte>, pos: nat): (r: Read<char>)
    requires pos <= |b|
    ensures r.Ok? ==> pos < r.value.1 <= |b|
  {
    if pos == |b| then Err(UnexpectedEnd)
    else
      var c := b[pos];
      if c == 34 then Ok(('"', pos + 1))
      else if c == 92 then Ok(('\\', pos + 1))
      else if c == 47 then Ok(('/', pos + 1))
      else if c == 98 then Ok(('\U{8}', pos + 1))
      else if c == 102 then Ok(('\U{c}', pos + 1))
      else if c == 110 then Ok(('\n', pos + 1))
      else if c == 114 then Ok(('\r', pos + 1))
      else if c == 116 then Ok(('\t', pos + 1))
      else if c == 117 then UnicodeEscape(b, pos + 1)
      else Err(Unexpected(pos))
  }

  // The end of the run of continuation bytes.
  function CharacterEnd(b: seq<byte>, pos: nat): (p: nat)
    requires pos <= |b|
    ensures pos <= p <= |b|
    decreases |b| - pos
  {
    if pos < |b| && Utf8.Continuation(b[pos]) then CharacterEnd(b, pos + 1) else pos
  }

  // One step inside a string: None at the closing quote, else the text it adds.
  function StringStep(b: seq<byte>, pos: nat): (r: Read<Option<string>>)
    requires pos <= |b|
    ensures r.Ok? ==> pos < r.value.1 <= |b|
  {
    if pos == |b| then Err(UnexpectedEnd)
    else if b[pos] == 34 then Ok((None, pos + 1))
    else if b[pos] == 92 then
      match Escape(b, pos + 1)
      case Err(e) => Err(e)
      case Ok((c, p)) => Ok((Some([c]), p))
    else if b[pos] < 0x20 then Err(Unexpected(pos))
    else if b[pos] < 0x80 then Ok((Some([b[pos] as char]), pos + 1))
    else
      var end := CharacterEnd(b, pos + 1);
      match Utf8.Decode(b[pos..end])
      case None => Err(Unexpected(pos))
      case Some(text) => Ok((Some(text), end))
  }

  // The rest of a string after `out` has been read.
  function StringRest(b: seq<byte>, pos: nat, out: string): (r: Read<string>)
    requires pos <= |b|
    ensures r.Ok? ==> pos < r.value.1 <= |b|
    decreases |b| - pos
  {
    match StringStep(b, pos)
    case Err(e) => Err(e)
    case Ok((None, p)) => Ok((out, p))
    case Ok((Some(text), p)) => StringRest(b, p, out + text)
  }

  function Expect(b: seq<byte>, pos: nat, c: byte): (r: Result<nat, JsonError>)
    requires pos <= |b|
    ensures r.Ok? ==> r.value == pos + 1 <= |b|
  {
    if pos == |b| then Err(UnexpectedEnd)
    else if b[pos] == c then Ok(pos + 1)
    else Err(Unexpected(pos))
  }

  function StringAt(b: seq<byte>, pos: nat): (r: Read<string>)
    requires pos <= |b|
    ensures r.Ok? ==> pos < r.value.1 <= |b|
  {
    match Expect(b, pos, 34)
    case Err(e) => Err(e)
    case Ok(p) => StringRest(b, p, "")
  }

  // ----- numbers -----

  // Past the digits that must follow `pos`, if at least one does.
  function SomeDigits(b: seq<byte>, pos: nat): (r: Result<nat, JsonError>)
    requires pos <= |b|
    ensures r.Ok? ==> pos < r.value <= |b|
    ensures r.Ok? ==> Decimal.AllDigits(b[pos..r.value])
  {
    if Digit(b, pos) then Ok(SkipDigits(b, pos)) else Err(Unexpected(pos))
  }

  // Before any fraction or exponent: zero alone, or a run that does not open with it.
  function WholePart(b: seq<byte>, pos: nat): (r: Result<nat, JsonError>)
    requires pos <= |b|
    ensures r.Ok? ==> pos < r.value <= |b|
    ensures r.Ok? ==> Decimal.AllDigits(b[pos..r.value])
  {
    if Looking(b, pos, 48) then Ok(pos + 1) else SomeDigits(b, pos)
  }

  function Fraction(b: seq<byte>, pos: nat): (r: Result<nat, JsonError>)
    requires pos <= |b|
    ensures r.Ok? ==> pos <= r.value <= |b|
  {
    if Looking(b, pos, 46) then SomeDigits(b, pos + 1) else Ok(pos)
  }

  function Exponent(b: seq<byte>, pos: nat): (r: Result<nat, JsonError>)
    requires pos <= |b|
    ensures r.Ok? ==> pos <= r.value <= |b|
  {
    if Looking(b, pos, 101) || Looking(b, pos, 69) then
      SomeDigits(b, if Looking(b, pos + 1, 43) || Looking(b, pos + 1, 45) then pos + 2 else pos + 1)
    else Ok(pos)
  }

  function Signed(negative: bool, magnitude: nat): int {
    if negative then -(magnitude as int) else magnitude
  }

  function NumberAt(b: seq<byte>, pos: nat): (r: Read<Value>)
    requires pos <= |b|
    ensures r.Ok? ==> pos < r.value.1 <= |b|
  {
    var negative := Looking(b, pos, 45);
    var start := if negative then pos + 1 else pos;
    match WholePart(b, start)
    case Err(e) => Err(e)
    case Ok(whole) =>
      match Fraction(b, whole)
      case Err(e) => Err(e)
      case Ok(fraction) =>
        match Exponent(b, fraction)
        case Err(e) => Err(e)
        case Ok(end) =>
          var i := Signed(negative, Decimal.Value(b[start..whole]));
          if end == whole && -0x8000_0000_0000_0000 <= i < 0x8000_0000_0000_0000 then Ok((Int(i), end))
          else Ok((Float(b[pos..end]), end))
  }

  // ----- values -----

  const NULL: seq<byte> := [110, 117, 108, 108]
  const TRUE: seq<byte> := [116, 114, 117, 101]
  const FALSE: seq<byte> := [102, 97, 108, 115, 101]

  function ValueAt(b: seq<byte>, pos: nat, depth: nat): (r: Read<Value>)
    requires pos <= |b|
    ensures r.Ok? ==> pos < r.value.1 <= |b|
    decreases |b| - pos, 2
  {
    if pos == |b| then Err(UnexpectedEnd)
    else
      var c := b[pos];
      if c == 110 then Literal(b, pos, NULL, Null)
      else if c == 116 then Literal(b, pos, TRUE, Bool(true))
      else if c == 102 then Literal(b, pos, FALSE, Bool(false))
      else if c == 34 then
        match StringAt(b, pos)
        case Err(e) => Err(e)
        case Ok((s, p)) => Ok((String(s), p))
      else if c == 91 then ArrayAt(b, pos, depth)
      else if c == 123 then ObjectAt(b, pos, depth)
      else if c == 45 || Decimal.IsDigit(c) then NumberAt(b, pos)
      else Err(Unexpected(pos))
  }

  function ArrayAt(b: seq<byte>, pos: nat, depth: nat): (r: Read<Value>)
    requires pos <= |b|
    ensures r.Ok? ==> pos < r.value.1 <= |b|
    decreases |b| - pos, 1
  {
    if depth + 1 > MAX_DEPTH then Err(TooDeep)
    else
      match Expect(b, pos, 91)
      case Err(e) => Err(e)
      case Ok(p) =>
        var q := SkipBlanks(b, p);
        if Looking(b, q, 93) then Ok((Array([]), q + 1)) else ItemsAt(b, q, depth + 1, [])
  }

  // The rest of an array after `items`, from where the next item may start.
  function ItemsAt(b: seq<byte>, pos: nat, depth: nat, items: seq<Value>): (r: Read<Value>)
    requires pos <= |b|
    ensures r.Ok? ==> pos < r.value.1 <= |b|
    decreases |b| - pos, 3
  {
    match ValueAt(b, SkipBlanks(b, pos), depth)
    case Err(e) => Err(e)
    case Ok((item, p)) =>
      var q := SkipBlanks(b, p);
      if q == |b| then Err(UnexpectedEnd)
      else if b[q] == 44 then ItemsAt(b, q + 1, depth, items + [item])
      else if b[q] == 93 then Ok((Array(items + [item]), q + 1))
      else Err(Unexpected(q))
  }

  function ObjectAt(b: seq<byte>, pos: nat, depth: nat): (r: Read<Value>)
    requires pos <= |b|
    ensures r.Ok? ==> pos < r.value.1 <= |b|
    decreases |b| - pos, 1
  {
    if depth + 1 > MAX_DEPTH then Err(TooDeep)
    else
      match Expect(b, pos, 123)
      case Err(e) => Err(e)
      case Ok(p) =>
        var q := SkipBlanks(b, p);
        if Looking(b, q, 125) then Ok((Object([]), q + 1)) else FieldsAt(b, q, depth + 1, [])
  }

  predicate Named(fields: seq<(string, Value)>, name: string) {
    exists k :: 0 <= k < |fields| && fields[k].0 == name
  }

  // A field name, the colon and the blanks after it.
  function NameAt(b: seq<byte>, pos: nat, fields: seq<(string, Value)>): (r: Read<string>)
    requires pos <= |b|
    ensures r.Ok? ==> pos < r.value.1 <= |b|
  {
    if !Looking(b, pos, 34) then Err(Unexpected(pos))
    else
      match StringAt(b, pos)
      case Err(e) => Err(e)
      case Ok((name, p)) =>
        if Named(fields, name) then Err(DuplicateKey(name))
        else
          match Expect(b, SkipBlanks(b, p), 58)
          case Err(e) => Err(e)
          case Ok(q) => Ok((name, SkipBlanks(b, q)))
  }

  function FieldsAt(b: seq<byte>, pos: nat, depth: nat, fields: seq<(string, Value)>): (r: Read<Value>)
    requires pos <= |b|
    ensures r.Ok? ==> pos < r.value.1 <= |b|
    decreases |b| - pos, 3
  {
    match NameAt(b, SkipBlanks(b, pos), fields)
    case Err(e) => Err(e)
    case Ok((name, start)) =>
      match ValueAt(b, start, depth)
      case Err(e) => Err(e)
      case Ok((value, p)) =>
        var q := SkipBlanks(b, p);
        if q == |b| then Err(UnexpectedEnd)
        else if b[q] == 44 then FieldsAt(b, q + 1, depth, fields + [(name, value)])
        else if b[q] == 125 then Ok((Object(fields + [(name, value)]), q + 1))
        else Err(Unexpected(q))
  }

  function Document(b: seq<byte>): Result<Value, JsonError> {
    var p := SkipBlanks(b, 0);
    if p == |b| then Err(UnexpectedEnd)
    else
      match ValueAt(b, p, 0)
      case Err(e) => Err(e)
      case Ok((value, q)) => if SkipBlanks(b, q) == |b| then Ok(value) else Err(TrailingContent)
  }

  function Parse(input: string): Result<Value, JsonError> {
    Document(Utf8.Encode(input))
  }
}
