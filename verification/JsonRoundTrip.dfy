/**
 The reader undoes the writer, and everything the reader accepts is within
 the depth limit and free of repeated keys.
 */
module JsonRoundTrip {
  import opened Wrappers
  import opened Bytes
  import opened JsonValue
  import opened JsonGrammar
  import Decimal
  import Hex
  import Utf8

  // `x` stands at `pos`.
  predicate At(b: seq<byte>, pos: nat, x: seq<byte>) {
    pos + |x| <= |b| && b[pos..pos + |x|] == x
  }

  lemma AtConcat(b: seq<byte>, pos: nat, x: seq<byte>, y: seq<byte>)
    ensures At(b, pos, x + y) <==> At(b, pos, x) && At(b, pos + |x|, y)
  {
    if At(b, pos, x + y) {
      assert b[pos..pos + |x|] == (x + y)[..|x|];
      assert b[pos + |x|..pos + |x| + |y|] == (x + y)[|x|..];
    }
    if At(b, pos, x) && At(b, pos + |x|, y) {
      assert b[pos..pos + |x + y|] == b[pos..pos + |x|] + b[pos + |x|..pos + |x| + |y|];
    }
  }

  lemma AtByte(b: seq<byte>, pos: nat, x: seq<byte>, k: nat)
    requires At(b, pos, x) && k < |x|
    ensures b[pos + k] == x[k]
  {
    assert b[pos..pos + |x|][k] == x[k];
  }

  lemma AtText(b: seq<byte>, pos: nat, s: string, t: string)
    ensures At(b, pos, Utf8.Encode(s + t)) <==>
            At(b, pos, Utf8.Encode(s)) && At(b, pos + |Utf8.Encode(s)|, Utf8.Encode(t))
    ensures |Utf8.Encode(s + t)| == |Utf8.Encode(s)| + |Utf8.Encode(t)|
  {
    hide Utf8.Encode, At;
    Utf8.EncodeConcat(s, t);
    AtConcat(b, pos, Utf8.Encode(s), Utf8.Encode(t));
  }

  // ----- characters of a string -----

  predicate CharacterBoundary(b: seq<byte>, pos: nat) {
    pos < |b| ==> !Utf8.Continuation(b[pos])
  }

  lemma {:induction false} CharacterEndAt(b: seq<byte>, pos: nat, end: nat)
    requires pos <= end <= |b| && CharacterBoundary(b, end)
    requires forall k :: pos <= k < end ==> Utf8.Continuation(b[k])
    ensures CharacterEnd(b, pos) == end
    decreases end - pos
  {
    if pos < end {
      CharacterEndAt(b, pos + 1, end);
    }
  }

  lemma MultiByteReads(c: char, b: seq<byte>, pos: nat)
    requires c as int >= 0x80
    requires At(b, pos, Utf8.EncodeChar(c)) && CharacterBoundary(b, pos + |Utf8.EncodeChar(c)|)
    ensures StringStep(b, pos) == Ok((Some([c]), pos + |Utf8.EncodeChar(c)|))
  {
    var e := Utf8.EncodeChar(c);
    assert forall k :: 1 <= k < |e| ==> Utf8.Continuation(e[k]);
    forall k | 0 <= k < |e|
      ensures b[pos + k] == e[k]
    {
      AtByte(b, pos, e, k);
    }
    assert forall k :: pos + 1 <= k < pos + |e| ==> b[k] == e[k - pos];
    CharacterEndAt(b, pos + 1, pos + |e|);
    assert b[pos] == e[0] >= 0x80;
    Utf8.EncodeDecode([c]);
    assert Utf8.Encode([c]) == e by {
      assert [c][1..] == "";
      assert e + [] == e;
    }
  }

  lemma Hex4Reads(b: seq<byte>, pos: nat, high: int, low: int)
    requires 0 <= high < 16 && 0 <= low < 16
    requires pos + 4 <= |b| && b[pos] == 48 && b[pos + 1] == 48
    requires b[pos + 2] == Hex.Digit(high) as int && b[pos + 3] == Hex.Digit(low) as int
    ensures Hex4(b, pos, 0, 0) == Ok((high * 16 + low, pos + 4))
  {
    HexDigitValue(high);
    HexDigitValue(low);
    hide HexValue, Hex.Digit;
    ZeroDigit();
    assert Hex4(b, pos, 3, high) == Hex4(b, pos, 4, high * 16 + low);
    assert Hex4(b, pos, 2, 0) == Hex4(b, pos, 3, high);
    assert Hex4(b, pos, 1, 0) == Hex4(b, pos, 2, 0);
  }

  lemma HexDigitValue(v: int)
    requires 0 <= v < 16
    ensures HexValue(Hex.Digit(v) as int) == Some(v as nat)
  {
  }

  lemma ZeroDigit()
    ensures HexValue(48) == Some(0)
  {
  }

  lemma ControlReads(c: char, b: seq<byte>, pos: nat)
    requires c < ' '
    requires At(b, pos, Utf8.Encode("\\u00" + [Hex.Digit(c as int / 16), Hex.Digit(c as int % 16)]))
    ensures StringStep(b, pos) == Ok((Some([c]), pos + 6))
  {
    var high, low := c as int / 16, c as int % 16;
    var w := "\\u00" + [Hex.Digit(high), Hex.Digit(low)];
    Utf8.EncodeAscii(w);
    var x := Utf8.Encode(w);
    AtByte(b, pos, x, 0);
    AtByte(b, pos, x, 1);
    AtByte(b, pos, x, 2);
    AtByte(b, pos, x, 3);
    AtByte(b, pos, x, 4);
    AtByte(b, pos, x, 5);
    hide Hex4, Hex.Digit;
    Hex4Reads(b, pos + 2, high, low);
    assert high * 16 + low == c as int;
    assert (high * 16 + low) as char == c;
    assert UnicodeEscape(b, pos + 2) == Ok((c, pos + 6));
  }

  lemma ShortEscapeReads(c: char, b: seq<byte>, pos: nat)
    requires c == '"' || c == '\\' || c == '\n' || c == '\r' || c == '\t' || c == '\U{8}' || c == '\U{c}'
    requires At(b, pos, Utf8.Encode(WriteChar(c)))
    ensures |Utf8.Encode(WriteChar(c))| == 2
    ensures StringStep(b, pos) == Ok((Some([c]), pos + 2))
  {
    Utf8.EncodeAscii(WriteChar(c));
    AtByte(b, pos, Utf8.Encode(WriteChar(c)), 0);
    AtByte(b, pos, Utf8.Encode(WriteChar(c)), 1);
  }

  lemma WrittenCharReads(c: char, b: seq<byte>, pos: nat)
    requires At(b, pos, Utf8.Encode(WriteChar(c)))
    requires CharacterBoundary(b, pos + |Utf8.Encode(WriteChar(c))|)
    ensures StringStep(b, pos) == Ok((Some([c]), pos + |Utf8.Encode(WriteChar(c))|))
  {
    var w := WriteChar(c);
    if c == '"' || c == '\\' || c == '\n' || c == '\r' || c == '\t' || c == '\U{8}' || c == '\U{c}' {
      ShortEscapeReads(c, b, pos);
    } else if c < ' ' {
      Utf8.EncodeAscii(w);
      ControlReads(c, b, pos);
    } else if c as int < 0x80 {
      Utf8.EncodeAscii(w);
      AtByte(b, pos, Utf8.Encode(w), 0);
    } else {
      assert [c][1..] == "";
      assert Utf8.Encode([c]) == Utf8.EncodeChar(c) + [] == Utf8.EncodeChar(c);
      MultiByteReads(c, b, pos);
    }
  }

  // Written text starts with a byte that starts a character.
  lemma WrittenCharStarts(c: char)
    ensures Utf8.Encode(WriteChar(c)) != [] && !Utf8.Continuation(Utf8.Encode(WriteChar(c))[0])
  {
    var w := WriteChar(c);
    assert Utf8.Encode(w) == Utf8.EncodeChar(w[0]) + Utf8.Encode(w[1..]);
  }

  lemma {:induction false} WrittenCharsRead(s: string, b: seq<byte>, pos: nat, out: string)
    requires At(b, pos, Utf8.Encode(WriteChars(s))) && Looking(b, pos + |Utf8.Encode(WriteChars(s))|, 34)
    ensures StringRest(b, pos, out) == Ok((out + s, pos + |Utf8.Encode(WriteChars(s))| + 1))
  {
    hide StringStep, WriteChar, Utf8.Encode;
    if s == "" {
      EmptyEncodes();
      ClosingQuote(b, pos);
      assert out + s == out;
    } else {
      var first, rest := WriteChar(s[0]), WriteChars(s[1..]);
      AtText(b, pos, first, rest);
      var next := pos + |Utf8.Encode(first)|;
      if s[1..] == "" {
        EmptyEncodes();
      } else {
        var second := WriteChar(s[1]);
        AtText(b, next, second, WriteChars(s[2..]));
        assert s[1..][0] == s[1] && s[1..][1..] == s[2..];
        WrittenCharStarts(s[1]);
        AtByte(b, next, Utf8.Encode(second), 0);
      }
      WrittenCharReads(s[0], b, pos);
      WrittenCharsRead(s[1..], b, next, out + [s[0]]);
      assert out + s == (out + [s[0]]) + s[1..];
    }
  }

  lemma EmptyEncodes()
    ensures Utf8.Encode("") == []
  {
  }

  lemma ClosingQuote(b: seq<byte>, pos: nat)
    requires Looking(b, pos, 34)
    ensures StringStep(b, pos) == Ok((None, pos + 1))
  {
  }

  lemma WrittenStringReads(s: string, b: seq<byte>, pos: nat)
    requires At(b, pos, Utf8.Encode(WriteString(s)))
    ensures Looking(b, pos, 34)
    ensures StringAt(b, pos) == Ok((s, pos + |Utf8.Encode(WriteString(s))|))
  {
    hide WriteChars, StringRest, StringStep;
    Utf8.EncodeAscii("\"");
    AtText(b, pos, "\"" + WriteChars(s), "\"");
    AtText(b, pos, "\"", WriteChars(s));
    hide Utf8.Encode;
    AtByte(b, pos, Utf8.Encode("\""), 0);
    AtByte(b, pos + 1 + |Utf8.Encode(WriteChars(s))|, Utf8.Encode("\""), 0);
    WrittenCharsRead(s, b, pos + 1, "");
    assert "" + s == s;
  }

  // ----- numbers -----

  // Nothing that would continue a number, an item or a field.
  predicate Delimited(b: seq<byte>, pos: nat) {
    pos == |b| || (pos < |b| && (b[pos] == 44 || b[pos] == 93 || b[pos] == 125))
  }

  lemma {:induction false} SkipDigitsTo(b: seq<byte>, pos: nat, end: nat)
    requires pos <= end <= |b| && !Digit(b, end)
    requires forall k :: pos <= k < end ==> Decimal.IsDigit(b[k])
    ensures SkipDigits(b, pos) == end
    decreases end - pos
  {
    if pos < end {
      SkipDigitsTo(b, pos + 1, end);
    }
  }

  lemma WrittenNaturalReads(n: nat, b: seq<byte>, start: nat)
    requires At(b, start, Utf8.Encode(Decimal.Render(n)))
    requires Delimited(b, start + |Utf8.Encode(Decimal.Render(n))|)
    ensures var end := start + |Utf8.Encode(Decimal.Render(n))|;
            && WholePart(b, start) == Ok(end) && Decimal.AllDigits(b[start..end]) && Decimal.Value(b[start..end]) == n
            && Digit(b, start)
  {
    var d := Utf8.Encode(Decimal.Render(n));
    Decimal.RenderReadsBack(n);
    forall k | start <= k < start + |d|
      ensures Decimal.IsDigit(b[k])
    {
      AtByte(b, start, d, k - start);
    }
    AtByte(b, start, d, 0);
    if n != 0 {
      SkipDigitsTo(b, start, start + |d|);
    }
  }

  lemma WholeNumberReads(b: seq<byte>, pos: nat, start: nat, end: nat, i: int64)
    requires pos <= start <= end <= |b|
    requires start == if Looking(b, pos, 45) then pos + 1 else pos
    requires WholePart(b, start) == Ok(end) && Delimited(b, end)
    requires Decimal.AllDigits(b[start..end]) && i == Signed(Looking(b, pos, 45), Decimal.Value(b[start..end]))
    ensures NumberAt(b, pos) == Ok((Int(i), end))
  {
    hide WholePart;
  }

  lemma WrittenIntReads(i: int64, b: seq<byte>, pos: nat)
    requires At(b, pos, Utf8.Encode(Decimal.RenderInt(i)))
    requires Delimited(b, pos + |Utf8.Encode(Decimal.RenderInt(i))|)
    ensures NumberAt(b, pos) == Ok((Int(i), pos + |Utf8.Encode(Decimal.RenderInt(i))|))
    ensures pos < |b| && (b[pos] == 45 || Decimal.IsDigit(b[pos]))
  {
    hide Utf8.Encode, WholePart, NumberAt, Decimal.Render, Decimal.Value, At, Delimited;
    var end := pos + |Utf8.Encode(Decimal.RenderInt(i))|;
    if i < 0 {
      var magnitude: nat := -(i as int);
      MinusSign();
      AtText(b, pos, "-", Decimal.Render(magnitude));
      AtByte(b, pos, Utf8.Encode("-"), 0);
      WrittenNaturalReads(magnitude, b, pos + 1);
      WholeNumberReads(b, pos, pos + 1, end, i);
    } else {
      WrittenNaturalReads(i, b, pos);
      WholeNumberReads(b, pos, pos, end, i);
    }
  }

  lemma MinusSign()
    ensures Utf8.Encode("-") == [45]
  {
    Utf8.EncodeAscii("-");
  }

  // ----- whole values -----

  lemma Punctuation()
    ensures Utf8.Encode("[") == [91] && Utf8.Encode("]") == [93] && Utf8.Encode("{") == [123]
    ensures Utf8.Encode("}") == [125] && Utf8.Encode(",") == [44] && Utf8.Encode(":") == [58]
  {
    OneAscii('['); OneAscii(']'); OneAscii('{'); OneAscii('}'); OneAscii(','); OneAscii(':');
  }

  lemma OneAscii(c: char)
    requires c < 128 as char
    ensures Utf8.Encode([c]) == [c as int]
  {
    Utf8.EncodeAscii([c]);
  }

  lemma Words()
    ensures Utf8.Encode("null") == NULL && Utf8.Encode("true") == TRUE && Utf8.Encode("false") == FALSE
  {
    Utf8.EncodeAscii("null"); Utf8.EncodeAscii("true"); Utf8.EncodeAscii("false");
    hide Utf8.Encode;
    assert Utf8.Encode("null") == NULL;
    assert Utf8.Encode("true") == TRUE;
    assert Utf8.Encode("false") == FALSE;
  }

  // The first byte of a written value: never blank, never a closing bracket.
  predicate OpensValue(c: byte) {
    c == 110 || c == 116 || c == 102 || c == 34 || c == 91 || c == 123 || c == 45 || Decimal.IsDigit(c)
  }

  lemma WrittenValueOpens(v: Value)
    requires FloatFree(v)
    ensures Utf8.Encode(Write(v)) != [] && OpensValue(Utf8.Encode(Write(v))[0])
  {
    var w := Write(v);
    match v
    case Int(i) =>
      if i < 0 {
        assert Utf8.Encode(w) == Utf8.EncodeChar('-') + Utf8.Encode(w[1..]);
      } else {
        Decimal.RenderReadsBack(i);
      }
    case String(s) => assert w[0] == '"';
    case Array(items) => assert w[0] == '[';
    case Object(fields) => assert w[0] == '{';
    case Null => assert w[0] == 'n';
    case Bool(b) => assert w[0] == if b then 't' else 'f';
  }

  lemma NoBlanks(b: seq<byte>, pos: nat)
    requires pos < |b| && !Blank(b[pos])
    ensures SkipBlanks(b, pos) == pos
  {
  }

  lemma {:induction false} WrittenValueReads(v: Value, b: seq<byte>, pos: nat, depth: nat)
    requires FloatFree(v) && DistinctKeys(v) && depth <= MAX_DEPTH && Nested(v, MAX_DEPTH - depth)
    requires At(b, pos, Utf8.Encode(Write(v))) && Delimited(b, pos + |Utf8.Encode(Write(v))|)
    ensures ValueAt(b, pos, depth) == Ok((v, pos + |Utf8.Encode(Write(v))|))
    decreases v, 1
  {
    hide Utf8.Encode, StringAt, NumberAt, ArrayAt, ObjectAt, WriteItems, WriteFields, Decimal.RenderInt;
    Words();
    WrittenValueOpens(v);
    AtByte(b, pos, Utf8.Encode(Write(v)), 0);
    match v
    case Null => LiteralReads(b, pos, NULL);
    case Bool(t) => LiteralReads(b, pos, if t then TRUE else FALSE);
    case Int(i) => WrittenIntReads(i, b, pos);
    case String(s) => WrittenStringReads(s, b, pos);
    case Array(items) => WrittenArrayReads(items, b, pos, depth);
    case Object(fields) => WrittenObjectReads(fields, b, pos, depth);
  }

  lemma LiteralReads(b: seq<byte>, pos: nat, word: seq<byte>)
    requires At(b, pos, word)
    ensures word <= b[pos..]
  {
  }

  predicate GoodItems(items: seq<Value>, depth: nat) {
    depth < MAX_DEPTH
    && forall k :: 0 <= k < |items| ==>
      FloatFree(items[k]) && DistinctKeys(items[k]) && Nested(items[k], MAX_DEPTH - depth - 1)
  }

  // What the reader does around one item that is in place.
  lemma ItemsAtStep(b: seq<byte>, pos: nat, depth: nat, items: seq<Value>, item: Value, p: nat)
    requires pos < p < |b| && !Blank(b[pos]) && ValueAt(b, pos, depth) == Ok((item, p))
    ensures b[p] == 44 ==> ItemsAt(b, pos, depth, items) == ItemsAt(b, p + 1, depth, items + [item])
    ensures b[p] == 93 ==> ItemsAt(b, pos, depth, items) == Ok((Array(items + [item]), p + 1))
  {
    hide ValueAt;
  }

  lemma ArrayAtOpens(b: seq<byte>, pos: nat, depth: nat)
    requires depth < MAX_DEPTH && Looking(b, pos, 91) && pos + 1 < |b| && !Blank(b[pos + 1])
    ensures ArrayAt(b, pos, depth)
         == if b[pos + 1] == 93 then Ok((Array([]), pos + 2)) else ItemsAt(b, pos + 1, depth + 1, [])
  {
  }

  lemma GoodItem(items: seq<Value>, depth: nat, k: nat)
    requires GoodItems(items, depth) && k < |items|
    ensures depth < MAX_DEPTH && FloatFree(items[k]) && DistinctKeys(items[k])
    ensures Nested(items[k], MAX_DEPTH - (depth + 1))
    ensures forall j :: 0 <= j < |items| ==> FloatFree(items[j])
  {
  }

  lemma ItemsUnfold(items: seq<Value>, position: nat)
    requires position < |items| && forall j :: 0 <= j < |items| ==> FloatFree(items[j])
    ensures WriteItems(items, position)
         == (if position == 0 then Write(items[0]) else "," + Write(items[position])) + WriteItems(items, position + 1)
    ensures WriteItems(items, |items|) == ""
  {
    hide FloatFree, Write;
    assert "" + Write(items[0]) == Write(items[0]);
  }

  // A written value in place: not blank, and not a closing bracket.
  lemma WrittenValueStarts(v: Value, b: seq<byte>, pos: nat)
    requires FloatFree(v) && At(b, pos, Utf8.Encode(Write(v)))
    ensures pos < |b| && OpensValue(b[pos]) && !Blank(b[pos]) && b[pos] != 93 && b[pos] != 125
    ensures |Utf8.Encode(Write(v))| > 0
  {
    hide Write, Utf8.Encode, FloatFree;
    WrittenValueOpens(v);
    AtByte(b, pos, Utf8.Encode(Write(v)), 0);
  }

  // An opening and a closing bracket around some text.
  lemma AtBracketed(b: seq<byte>, pos: nat, open: char, body: string, close: char)
    requires open < 128 as char && close < 128 as char
    requires At(b, pos, Utf8.Encode([open] + body + [close]))
    ensures Looking(b, pos, open as int) && At(b, pos + 1, Utf8.Encode(body))
    ensures Looking(b, pos + 1 + |Utf8.Encode(body)|, close as int)
    ensures |Utf8.Encode([open] + body + [close])| == |Utf8.Encode(body)| + 2
  {
    hide Utf8.Encode, At;
    AtText(b, pos, [open] + body, [close]);
    AtText(b, pos, [open], body);
    OneAscii(open);
    OneAscii(close);
    AtOne(b, pos, open as int);
    AtOne(b, pos + 1 + |Utf8.Encode(body)|, close as int);
  }

  lemma AtOne(b: seq<byte>, pos: nat, c: byte)
    requires At(b, pos, [c])
    ensures Looking(b, pos, c)
  {
    AtByte(b, pos, [c], 0);
  }

  lemma {:induction false} WrittenArrayReads(items: seq<Value>, b: seq<byte>, pos: nat, depth: nat)
    requires GoodItems(items, depth)
    requires At(b, pos, Utf8.Encode("[" + WriteItems(items, 0) + "]"))
    ensures Looking(b, pos, 91)
    ensures ArrayAt(b, pos, depth) == Ok((Array(items), pos + |Utf8.Encode("[" + WriteItems(items, 0) + "]")|))
    decreases items, 3
  {
    Writable(items, [], depth);
    hide Utf8.Encode, Write, WriteItems, FloatFree, DistinctKeys, Nested, GoodItems, ArrayAt, ItemsAt, At;
    var body := WriteItems(items, 0);
    assert "[" + body + "]" == ['['] + body + [']'];
    AtBracketed(b, pos, '[', body, ']');
    WrittenBodyOfArray(items, Utf8.Encode(body), b, pos, depth);
  }

  lemma {:induction false} WrittenBodyOfArray(items: seq<Value>, body: seq<byte>, b: seq<byte>, pos: nat, depth: nat)
    requires GoodItems(items, depth) && body == Utf8.Encode(WriteItems(items, 0))
    requires Looking(b, pos, 91) && At(b, pos + 1, body) && Looking(b, pos + 1 + |body|, 93)
    ensures ArrayAt(b, pos, depth) == Ok((Array(items), pos + 2 + |body|))
    decreases items, 2
  {
    hide *;
    if items == [] {
      EmptyArrayReads(items, body, b, pos, depth);
    } else {
      FilledArrayReads(items, body, b, pos, depth);
    }
  }

  lemma Writable(items: seq<Value>, fields: seq<(string, Value)>, depth: nat)
    ensures GoodItems(items, depth) ==> depth < MAX_DEPTH && forall k :: 0 <= k < |items| ==> FloatFree(items[k])
    ensures GoodFields(fields, depth) ==> depth < MAX_DEPTH && forall k :: 0 <= k < |fields| ==> FloatFree(fields[k].1)
  {
  }

  lemma EmptyArrayReads(items: seq<Value>, body: seq<byte>, b: seq<byte>, pos: nat, depth: nat)
    requires GoodItems(items, depth) && items == [] && body == Utf8.Encode(WriteItems(items, 0))
    requires Looking(b, pos, 91) && Looking(b, pos + 1 + |body|, 93)
    ensures ArrayAt(b, pos, depth) == Ok((Array(items), pos + 2 + |body|))
  {
    hide ItemsAt;
  }

  lemma {:induction false} FilledArrayReads(items: seq<Value>, body: seq<byte>, b: seq<byte>, pos: nat, depth: nat)
    requires GoodItems(items, depth) && items != [] && body == Utf8.Encode(WriteItems(items, 0))
    requires Looking(b, pos, 91) && At(b, pos + 1, body) && Looking(b, pos + 1 + |body|, 93)
    ensures ArrayAt(b, pos, depth) == Ok((Array(items), pos + 2 + |body|))
    decreases items, 1
  {
    hide *;
    GoodItem(items, depth, 0);
    var first, rest := Utf8.Encode(Write(items[0])), Utf8.Encode(WriteItems(items, 1));
    ItemsUnfold(items, 0);
    AtText(b, pos + 1, Write(items[0]), WriteItems(items, 1));
    assert |body| == |first| + |rest|;
    WrittenValueStarts(items[0], b, pos + 1);
    ArrayAtOpens(b, pos, depth);
    WrittenItemsRead(items, 0, b, pos + 1, depth);
    assert items[..0] == [];
  }

  lemma {:induction false} WrittenItemsRead(items: seq<Value>, position: nat, b: seq<byte>, pos: nat, depth: nat)
    requires GoodItems(items, depth) && position < |items|
    requires At(b, pos, Utf8.Encode(Write(items[position])))
    requires At(b, pos + |Utf8.Encode(Write(items[position]))|, Utf8.Encode(WriteItems(items, position + 1)))
    requires Looking(b, pos + |Utf8.Encode(Write(items[position]))|
                        + |Utf8.Encode(WriteItems(items, position + 1))|, 93)
    ensures ItemsAt(b, pos, depth + 1, items[..position])
         == Ok((Array(items), pos + |Utf8.Encode(Write(items[position]))|
                              + |Utf8.Encode(WriteItems(items, position + 1))| + 1))
    decreases items, 0, |items| - position
  {
    hide Utf8.Encode, Write, WriteItems, FloatFree, DistinctKeys, Nested, GoodItems, ValueAt, ItemsAt, At;
    Punctuation();
    EmptyEncodes();
    GoodItem(items, depth, position);
    var item := items[position];
    var p := pos + |Utf8.Encode(Write(item))|;
    WrittenValueStarts(item, b, pos);
    assert items[..position] + [item] == items[..position + 1];
    if position + 1 == |items| {
      ItemsUnfold(items, 0);
      assert items[..position + 1] == items;
      WrittenValueReads(item, b, pos, depth + 1);
      ItemsAtStep(b, pos, depth + 1, items[..position], item, p);
    } else {
      var next := items[position + 1];
      ItemsUnfold(items, position + 1);
      AtText(b, p, "," + Write(next), WriteItems(items, position + 2));
      AtText(b, p, ",", Write(next));
      AtOne(b, p, 44);
      WrittenValueReads(item, b, pos, depth + 1);
      ItemsAtStep(b, pos, depth + 1, items[..position], item, p);
      WrittenItemsRead(items, position + 1, b, p + 1, depth);
    }
  }

  // ----- objects -----

  predicate GoodFields(fields: seq<(string, Value)>, depth: nat) {
    depth < MAX_DEPTH && DistinctNames(fields)
    && forall k :: 0 <= k < |fields| ==>
      FloatFree(fields[k].1) && DistinctKeys(fields[k].1) && Nested(fields[k].1, MAX_DEPTH - depth - 1)
  }

  lemma FieldsAtStep(b: seq<byte>, pos: nat, depth: nat, fields: seq<(string, Value)>,
                     name: string, start: nat, value: Value, p: nat)
    requires pos < start <= p < |b| && !Blank(b[pos])
    requires NameAt(b, pos, fields) == Ok((name, start)) && ValueAt(b, start, depth) == Ok((value, p))
    ensures b[p] == 44 ==> FieldsAt(b, pos, depth, fields) == FieldsAt(b, p + 1, depth, fields + [(name, value)])
    ensures b[p] == 125 ==> FieldsAt(b, pos, depth, fields) == Ok((Object(fields + [(name, value)]), p + 1))
  {
    hide ValueAt, NameAt;
  }

  lemma ObjectAtOpens(b: seq<byte>, pos: nat, depth: nat)
    requires depth < MAX_DEPTH && Looking(b, pos, 123) && pos + 1 < |b| && !Blank(b[pos + 1])
    ensures ObjectAt(b, pos, depth)
         == if b[pos + 1] == 125 then Ok((Object([]), pos + 2)) else FieldsAt(b, pos + 1, depth + 1, [])
  {
  }

  lemma GoodField(fields: seq<(string, Value)>, depth: nat, k: nat)
    requires GoodFields(fields, depth) && k < |fields|
    ensures depth < MAX_DEPTH && DistinctNames(fields)
    ensures FloatFree(fields[k].1) && DistinctKeys(fields[k].1)
    ensures Nested(fields[k].1, MAX_DEPTH - (depth + 1))
    ensures forall j :: 0 <= j < |fields| ==> FloatFree(fields[j].1)
  {
  }

  lemma FieldsUnfold(fields: seq<(string, Value)>, position: nat)
    requires position < |fields| && forall j :: 0 <= j < |fields| ==> FloatFree(fields[j].1)
    ensures WriteFields(fields, position)
         == (if position == 0 then WriteField(fields[0]) else "," + WriteField(fields[position]))
            + WriteFields(fields, position + 1)
    ensures WriteFields(fields, |fields|) == ""
  {
    hide FloatFree, WriteField;
    assert "" + WriteField(fields[0]) == WriteField(fields[0]);
  }

  lemma {:induction false} WrittenObjectReads(fields: seq<(string, Value)>, b: seq<byte>, pos: nat, depth: nat)
    requires GoodFields(fields, depth)
    requires At(b, pos, Utf8.Encode("{" + WriteFields(fields, 0) + "}"))
    ensures Looking(b, pos, 123)
    ensures ObjectAt(b, pos, depth) == Ok((Object(fields), pos + |Utf8.Encode("{" + WriteFields(fields, 0) + "}")|))
    decreases fields, 4
  {
    Writable([], fields, depth);
    hide Utf8.Encode, WriteField, WriteFields, FloatFree, DistinctKeys, Nested, GoodFields, ObjectAt, FieldsAt, At;
    var body := WriteFields(fields, 0);
    assert "{" + body + "}" == ['{'] + body + ['}'];
    AtBracketed(b, pos, '{', body, '}');
    WrittenBodyOfObject(fields, Utf8.Encode(body), b, pos, depth);
  }

  lemma {:induction false} WrittenBodyOfObject(fields: seq<(string, Value)>, body: seq<byte>, b: seq<byte>, pos: nat,
                                               depth: nat)
    requires GoodFields(fields, depth) && body == Utf8.Encode(WriteFields(fields, 0))
    requires Looking(b, pos, 123) && At(b, pos + 1, body) && Looking(b, pos + 1 + |body|, 125)
    ensures ObjectAt(b, pos, depth) == Ok((Object(fields), pos + 2 + |body|))
    decreases fields, 3
  {
    hide *;
    if fields == [] {
      EmptyObjectReads(fields, body, b, pos, depth);
    } else {
      FilledObjectReads(fields, body, b, pos, depth);
    }
  }

  lemma EmptyObjectReads(fields: seq<(string, Value)>, body: seq<byte>, b: seq<byte>, pos: nat, depth: nat)
    requires GoodFields(fields, depth) && fields == [] && body == Utf8.Encode(WriteFields(fields, 0))
    requires Looking(b, pos, 123) && Looking(b, pos + 1 + |body|, 125)
    ensures ObjectAt(b, pos, depth) == Ok((Object(fields), pos + 2 + |body|))
  {
    hide FieldsAt;
  }

  lemma {:induction false} FilledObjectReads(fields: seq<(string, Value)>, body: seq<byte>, b: seq<byte>, pos: nat,
                                             depth: nat)
    requires GoodFields(fields, depth) && fields != [] && body == Utf8.Encode(WriteFields(fields, 0))
    requires Looking(b, pos, 123) && At(b, pos + 1, body) && Looking(b, pos + 1 + |body|, 125)
    ensures ObjectAt(b, pos, depth) == Ok((Object(fields), pos + 2 + |body|))
    decreases fields, 2
  {
    hide *;
    GoodField(fields, depth, 0);
    var first, rest := Utf8.Encode(WriteField(fields[0])), Utf8.Encode(WriteFields(fields, 1));
    FieldsUnfold(fields, 0);
    AtText(b, pos + 1, WriteField(fields[0]), WriteFields(fields, 1));
    assert |body| == |first| + |rest|;
    WrittenFieldOpens(fields[0], b, pos + 1);
    ObjectAtOpens(b, pos, depth);
    WrittenFieldsRead(fields, 0, b, pos + 1, depth);
    assert fields[..0] == [];
  }

  lemma WrittenFieldOpens(field: (string, Value), b: seq<byte>, pos: nat)
    requires FloatFree(field.1)
    requires At(b, pos, Utf8.Encode(WriteField(field)))
    ensures Looking(b, pos, 34) && pos < |b| && b[pos] == 34 && !Blank(b[pos])
  {
    hide Utf8.Encode, FloatFree, Write, WriteString;
    AtText(b, pos, WriteString(field.0) + ":", Write(field.1));
    AtText(b, pos, WriteString(field.0), ":");
    WrittenStringReads(field.0, b, pos);
  }

  // Where the value of a field starts.
  function FieldValueStart(field: (string, Value), pos: nat): nat {
    pos + |Utf8.Encode(WriteString(field.0))| + 1
  }

  // The name, the colon, and then the value in place.
  lemma WrittenNameReads(fields: seq<(string, Value)>, position: nat, b: seq<byte>, pos: nat)
    requires position < |fields| && DistinctNames(fields) && FloatFree(fields[position].1)
    requires At(b, pos, Utf8.Encode(WriteField(fields[position])))
    ensures var start := FieldValueStart(fields[position], pos);
            && Looking(b, pos, 34)
            && NameAt(b, pos, fields[..position]) == Ok((fields[position].0, start))
            && At(b, start, Utf8.Encode(Write(fields[position].1)))
            && |Utf8.Encode(WriteField(fields[position]))| == start - pos + |Utf8.Encode(Write(fields[position].1))|
  {
    hide Utf8.Encode, FloatFree, Write, WriteString, StringAt, At;
    Punctuation();
    var field := fields[position];
    AtText(b, pos, WriteString(field.0) + ":", Write(field.1));
    AtText(b, pos, WriteString(field.0), ":");
    WrittenStringReads(field.0, b, pos);
    var colon := pos + |Utf8.Encode(WriteString(field.0))|;
    AtOne(b, colon, 58);
    NoBlanks(b, colon);
    WrittenValueStarts(field.1, b, colon + 1);
    NoBlanks(b, colon + 1);
    assert !Named(fields[..position], field.0);
  }

  lemma {:induction false} WrittenFieldReads(field: (string, Value), b: seq<byte>, start: nat, depth: nat)
    requires FloatFree(field.1) && DistinctKeys(field.1) && depth <= MAX_DEPTH && Nested(field.1, MAX_DEPTH - depth)
    requires At(b, start, Utf8.Encode(Write(field.1))) && Delimited(b, start + |Utf8.Encode(Write(field.1))|)
    ensures ValueAt(b, start, depth) == Ok((field.1, start + |Utf8.Encode(Write(field.1))|))
    decreases field, 2
  {
    hide *;
    WrittenValueReads(field.1, b, start, depth);
  }

  lemma {:induction false} WrittenFieldsRead(fields: seq<(string, Value)>, position: nat, b: seq<byte>, pos: nat,
                                             depth: nat)
    requires GoodFields(fields, depth) && position < |fields|
    requires At(b, pos, Utf8.Encode(WriteField(fields[position])))
    requires At(b, pos + |Utf8.Encode(WriteField(fields[position]))|, Utf8.Encode(WriteFields(fields, position + 1)))
    requires Looking(b, pos + |Utf8.Encode(WriteField(fields[position]))|
                        + |Utf8.Encode(WriteFields(fields, position + 1))|, 125)
    ensures FieldsAt(b, pos, depth + 1, fields[..position])
         == Ok((Object(fields), pos + |Utf8.Encode(WriteField(fields[position]))|
                               + |Utf8.Encode(WriteFields(fields, position + 1))| + 1))
    decreases fields, 0, |fields| - position
  {
    hide Utf8.Encode, WriteField, WriteFields, WriteString, FloatFree, DistinctKeys, Nested, GoodFields, ValueAt,
         NameAt, FieldsAt, DistinctNames, At, FieldValueStart;
    Punctuation();
    EmptyEncodes();
    GoodField(fields, depth, position);
    var field := fields[position];
    var p := pos + |Utf8.Encode(WriteField(field))|;
    var start := FieldValueStart(field, pos);
    WrittenNameReads(fields, position, b, pos);
    WrittenValueStarts(field.1, b, start);
    assert fields[..position] + [(field.0, field.1)] == fields[..position + 1];
    StartAfter(field, pos);
    if position + 1 == |fields| {
      FieldsUnfold(fields, 0);
      assert fields[..position + 1] == fields;
      WrittenFieldReads(field, b, start, depth + 1);
      FieldsAtStep(b, pos, depth + 1, fields[..position], field.0, start, field.1, p);
    } else {
      var next := fields[position + 1];
      FieldsUnfold(fields, position + 1);
      AtText(b, p, "," + WriteField(next), WriteFields(fields, position + 2));
      AtText(b, p, ",", WriteField(next));
      AtOne(b, p, 44);
      WrittenFieldReads(field, b, start, depth + 1);
      FieldsAtStep(b, pos, depth + 1, fields[..position], field.0, start, field.1, p);
      WrittenFieldsRead(fields, position + 1, b, p + 1, depth);
    }
  }

  lemma StartAfter(field: (string, Value), pos: nat)
    ensures FieldValueStart(field, pos) > pos
  {
  }

  // ----- what is accepted is within the limits -----

  predicate Sound(v: Value, depth: nat) {
    depth <= MAX_DEPTH && DistinctKeys(v) && Nested(v, MAX_DEPTH - depth)
  }

  lemma {:induction false} AcceptedValueSound(b: seq<byte>, pos: nat, depth: nat)
    requires pos <= |b| && depth <= MAX_DEPTH && ValueAt(b, pos, depth).Ok?
    ensures Sound(ValueAt(b, pos, depth).value.0, depth)
    decreases |b| - pos, 2
  {
    hide StringAt, NumberAt, ArrayAt, ObjectAt;
    if b[pos] == 91 {
      AcceptedArraySound(b, pos, depth);
    } else if b[pos] == 123 {
      AcceptedObjectSound(b, pos, depth);
    } else {
      NumbersAreFlat(b, pos);
    }
  }

  lemma NumbersAreFlat(b: seq<byte>, pos: nat)
    requires pos <= |b|
    ensures NumberAt(b, pos).Ok? ==> NumberAt(b, pos).value.0.Int? || NumberAt(b, pos).value.0.Float?
  {
    hide WholePart, Fraction, Exponent;
  }

  lemma {:induction false} AcceptedArraySound(b: seq<byte>, pos: nat, depth: nat)
    requires pos <= |b| && depth <= MAX_DEPTH && ArrayAt(b, pos, depth).Ok?
    ensures Sound(ArrayAt(b, pos, depth).value.0, depth)
    decreases |b| - pos, 1
  {
    hide ItemsAt;
    var q := SkipBlanks(b, pos + 1);
    if !Looking(b, q, 93) {
      AcceptedItemsSound(b, q, depth + 1, []);
    }
  }

  lemma {:induction false} AcceptedItemsSound(b: seq<byte>, pos: nat, depth: nat, items: seq<Value>)
    requires pos <= |b| && 1 <= depth <= MAX_DEPTH && ItemsAt(b, pos, depth, items).Ok?
    requires forall k :: 0 <= k < |items| ==> Sound(items[k], depth)
    ensures Sound(ItemsAt(b, pos, depth, items).value.0, depth - 1)
    decreases |b| - pos, 3
  {
    hide ValueAt;
    var start := SkipBlanks(b, pos);
    var (item, p) := ValueAt(b, start, depth).value;
    AcceptedValueSound(b, start, depth);
    var q := SkipBlanks(b, p);
    if b[q] == 44 {
      AcceptedItemsSound(b, q + 1, depth, items + [item]);
    }
  }

  lemma {:induction false} AcceptedObjectSound(b: seq<byte>, pos: nat, depth: nat)
    requires pos <= |b| && depth <= MAX_DEPTH && ObjectAt(b, pos, depth).Ok?
    ensures Sound(ObjectAt(b, pos, depth).value.0, depth)
    decreases |b| - pos, 1
  {
    hide FieldsAt;
    var q := SkipBlanks(b, pos + 1);
    if !Looking(b, q, 125) {
      AcceptedFieldsSound(b, q, depth + 1, []);
    }
  }

  lemma {:induction false} AcceptedFieldsSound(b: seq<byte>, pos: nat, depth: nat, fields: seq<(string, Value)>)
    requires pos <= |b| && 1 <= depth <= MAX_DEPTH && FieldsAt(b, pos, depth, fields).Ok?
    requires DistinctNames(fields) && forall k :: 0 <= k < |fields| ==> Sound(fields[k].1, depth)
    ensures Sound(FieldsAt(b, pos, depth, fields).value.0, depth - 1)
    decreases |b| - pos, 3
  {
    hide ValueAt, StringAt;
    var (name, start) := NameAt(b, SkipBlanks(b, pos), fields).value;
    var (value, p) := ValueAt(b, start, depth).value;
    AcceptedValueSound(b, start, depth);
    assert !Named(fields, name);
    assert DistinctNames(fields + [(name, value)]);
    var q := SkipBlanks(b, p);
    if b[q] == 44 {
      AcceptedFieldsSound(b, q + 1, depth, fields + [(name, value)]);
    }
  }

  // ----- the theorems -----

  /** Every accepted document nests at most MAX_DEPTH deep and repeats no key. */
  lemma AcceptedDocuments(input: string)
    requires Parse(input).Ok?
    ensures DistinctKeys(Parse(input).value) && Nested(Parse(input).value, MAX_DEPTH)
  {
    var b := Utf8.Encode(input);
    hide ValueAt, Utf8.Encode;
    AcceptedValueSound(b, SkipBlanks(b, 0), 0);
  }

  /** A float-free value survives being written and read exactly when it is within the limits. */
  lemma WriteThenParse(v: Value)
    requires FloatFree(v)
    ensures Parse(Write(v)) == Ok(v) <==> DistinctKeys(v) && Nested(v, MAX_DEPTH)
  {
    hide ValueAt, Utf8.Encode, Write, FloatFree, DistinctKeys, Nested;
    if DistinctKeys(v) && Nested(v, MAX_DEPTH) {
      var b := Utf8.Encode(Write(v));
      assert b[0..|b|] == b;
      WrittenValueStarts(v, b, 0);
      NoBlanks(b, 0);
      WrittenValueReads(v, b, 0, 0);
    }
    if Parse(Write(v)) == Ok(v) {
      AcceptedDocuments(Write(v));
    }
  }
}
