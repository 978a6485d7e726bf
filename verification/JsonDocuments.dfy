/**
 The documents of JSON (RFC 8259), set down as syntax trees with every blank
 and digit in place, and that the reader accepts exactly those.
 */
module JsonDocuments {
  import opened Wrappers
  import opened Bytes
  import opened JsonValue
  import opened JsonGrammar
  import opened JsonRoundTrip
  import opened JsonStrings
  import Decimal

  // ----- syntax -----

  datatype Power = Power(letter: byte, sign: seq<byte>, digits: seq<byte>)

  // A number: a sign, the digits before any point, those after it, and any power of ten.
  datatype Numeral = Numeral(negative: bool, whole: seq<byte>, fraction: Option<seq<byte>>, power: Option<Power>)

  datatype Tree =
    | NullTree
    | BoolTree(b: bool)
    | NumberTree(n: Numeral)
    | StringTree(pieces: seq<Piece>)
    | EmptyArray(blank: seq<byte>)
    | ArrayTree(items: Items)
    | EmptyObject(blank: seq<byte>)
    | ObjectTree(fields: Fields)

  // An item with the blanks around it, and those after it.
  datatype Items =
    | LastItem(before: seq<byte>, item: Tree, after: seq<byte>)
    | MoreItems(before: seq<byte>, item: Tree, after: seq<byte>, rest: Items)

  // A field: its name, a colon and its value, with the blanks around each.
  datatype Fields =
    | LastField(before: seq<byte>, name: seq<Piece>, gap: seq<byte>, lead: seq<byte>, value: Tree, after: seq<byte>)
    | MoreFields(before: seq<byte>, name: seq<Piece>, gap: seq<byte>, lead: seq<byte>, value: Tree, after: seq<byte>,
                 rest: Fields)

  predicate AllBlank(x: seq<byte>) {
    forall i :: 0 <= i < |x| ==> Blank(x[i])
  }

  predicate SomeDigitsIn(x: seq<byte>) {
    x != [] && Decimal.AllDigits(x)
  }

  predicate LegalNumeral(n: Numeral) {
    && SomeDigitsIn(n.whole) && (n.whole[0] == 48 ==> |n.whole| == 1)
    && (n.fraction.Some? ==> SomeDigitsIn(n.fraction.value))
    && (n.power.Some? ==> && (n.power.value.letter == 101 || n.power.value.letter == 69)
                          && (n.power.value.sign == [] || n.power.value.sign == [43] || n.power.value.sign == [45])
                          && SomeDigitsIn(n.power.value.digits))
  }

  predicate LegalTree(t: Tree) {
    match t
    case NullTree => true
    case BoolTree(_) => true
    case NumberTree(n) => LegalNumeral(n)
    case StringTree(pieces) => AllLegal(pieces)
    case EmptyArray(blank) => AllBlank(blank)
    case ArrayTree(items) => LegalItems(items)
    case EmptyObject(blank) => AllBlank(blank)
    case ObjectTree(fields) => LegalFields(fields)
  }

  predicate LegalItems(it: Items) {
    AllBlank(it.before) && LegalTree(it.item) && AllBlank(it.after) && (it.MoreItems? ==> LegalItems(it.rest))
  }

  predicate LegalFields(f: Fields) {
    && AllBlank(f.before) && AllLegal(f.name) && AllBlank(f.gap) && AllBlank(f.lead) && LegalTree(f.value)
    && AllBlank(f.after) && (f.MoreFields? ==> LegalFields(f.rest))
  }

  // ----- how a tree is written -----

  function FractionBytes(fraction: Option<seq<byte>>): seq<byte> {
    match fraction
    case None => []
    case Some(digits) => [46] + digits
  }

  function PowerBytes(power: Option<Power>): seq<byte> {
    match power
    case None => []
    case Some(p) => [p.letter] + p.sign + p.digits
  }

  function NumeralBytes(n: Numeral): seq<byte> {
    (if n.negative then [45] else []) + (n.whole + (FractionBytes(n.fraction) + PowerBytes(n.power)))
  }

  function TreeBytes(t: Tree): seq<byte>
    requires LegalTree(t)
  {
    match t
    case NullTree => NULL
    case BoolTree(b) => if b then TRUE else FALSE
    case NumberTree(n) => NumeralBytes(n)
    case StringTree(pieces) => Quoted(pieces)
    case EmptyArray(blank) => [91] + (blank + [93])
    case ArrayTree(items) => [91] + ItemsBytes(items)
    case EmptyObject(blank) => [123] + (blank + [125])
    case ObjectTree(fields) => [123] + FieldsBytes(fields)
  }

  // The items, and the bracket that ends them.
  function ItemsBytes(it: Items): seq<byte>
    requires LegalItems(it)
  {
    it.before + (TreeBytes(it.item) + (it.after + if it.MoreItems? then [44] + ItemsBytes(it.rest) else [93]))
  }

  function FieldsBytes(f: Fields): seq<byte>
    requires LegalFields(f)
  {
    f.before + (Quoted(f.name) + (f.gap + ([58] + (f.lead + (TreeBytes(f.value)
    + (f.after + if f.MoreFields? then [44] + FieldsBytes(f.rest) else [125]))))))
  }

  // ----- what a tree means -----

  function NumeralMeans(n: Numeral): Value
    requires LegalNumeral(n)
  {
    var i := Signed(n.negative, Decimal.Value(n.whole));
    if n.fraction.None? && n.power.None? && -0x8000_0000_0000_0000 <= i < 0x8000_0000_0000_0000 then Int(i)
    else Float(NumeralBytes(n))
  }

  function TreeMeans(t: Tree): Value
    requires LegalTree(t)
  {
    match t
    case NullTree => Null
    case BoolTree(b) => Bool(b)
    case NumberTree(n) => NumeralMeans(n)
    case StringTree(pieces) => String(Text(pieces))
    case EmptyArray(_) => Array([])
    case ArrayTree(items) => Array(ItemsMean(items))
    case EmptyObject(_) => Object([])
    case ObjectTree(fields) => Object(FieldsMean(fields))
  }

  function ItemsMean(it: Items): seq<Value>
    requires LegalItems(it)
  {
    [TreeMeans(it.item)] + if it.MoreItems? then ItemsMean(it.rest) else []
  }

  function FieldsMean(f: Fields): seq<(string, Value)>
    requires LegalFields(f)
  {
    [(Text(f.name), TreeMeans(f.value))] + if f.MoreFields? then FieldsMean(f.rest) else []
  }

  // ----- blanks -----

  predicate NotBlank(b: seq<byte>, pos: nat) {
    pos < |b| ==> !Blank(b[pos])
  }

  lemma {:induction false} BlanksSkipped(b: seq<byte>, pos: nat, x: seq<byte>)
    requires At(b, pos, x) && AllBlank(x) && NotBlank(b, pos + |x|)
    ensures pos <= |b| && SkipBlanks(b, pos) == pos + |x|
    decreases |x|
  {
    if x != [] {
      AtByte(b, pos, x, 0);
      assert b[pos + 1..pos + |x|] == b[pos..pos + |x|][1..];
      BlanksSkipped(b, pos + 1, x[1..]);
    }
  }

  lemma {:induction false} BlanksFrom(b: seq<byte>, pos: nat)
    requires pos <= |b|
    ensures var q := SkipBlanks(b, pos);
            && AllBlank(b[pos..q]) && At(b, pos, b[pos..q]) && NotBlank(b, q) && SkipBlanks(b, q) == q
    decreases |b| - pos
  {
    if pos < |b| && Blank(b[pos]) {
      BlanksFrom(b, pos + 1);
      var q := SkipBlanks(b, pos);
      assert b[pos..q] == [b[pos]] + b[pos + 1..q];
    }
  }

  // ----- numbers -----

  // What may follow a value: nothing, a blank, a comma or a closing bracket.
  predicate Ends(b: seq<byte>, pos: nat) {
    pos <= |b| && (pos < |b| ==> Blank(b[pos]) || b[pos] == 44 || b[pos] == 93 || b[pos] == 125)
  }

  lemma DigitsAt(b: seq<byte>, pos: nat, x: seq<byte>)
    requires At(b, pos, x) && SomeDigitsIn(x) && !Digit(b, pos + |x|)
    ensures SomeDigits(b, pos) == Ok(pos + |x|) && b[pos..pos + |x|] == x
  {
    forall k | pos <= k < pos + |x|
      ensures Decimal.IsDigit(b[k])
    {
      AtByte(b, pos, x, k - pos);
    }
    AtByte(b, pos, x, 0);
    SkipDigitsTo(b, pos, pos + |x|);
  }

  lemma FractionAt(b: seq<byte>, pos: nat, fraction: Option<seq<byte>>)
    requires At(b, pos, FractionBytes(fraction)) && (fraction.Some? ==> SomeDigitsIn(fraction.value))
    requires !Digit(b, pos + |FractionBytes(fraction)|)
    requires fraction.None? ==> !Looking(b, pos, 46)
    ensures Fraction(b, pos) == Ok(pos + |FractionBytes(fraction)|)
  {
    hide SomeDigits;
    if fraction.Some? {
      AtConcat(b, pos, [46], fraction.value);
      AtByte(b, pos, [46], 0);
      DigitsAt(b, pos + 1, fraction.value);
    }
  }

  lemma PowerAt(b: seq<byte>, pos: nat, power: Option<Power>)
    requires At(b, pos, PowerBytes(power)) && Ends(b, pos + |PowerBytes(power)|)
    requires power.Some? ==> && (power.value.letter == 101 || power.value.letter == 69)
                             && (power.value.sign == [] || power.value.sign == [43] || power.value.sign == [45])
                             && SomeDigitsIn(power.value.digits)
    ensures Exponent(b, pos) == Ok(pos + |PowerBytes(power)|)
  {
    hide SomeDigits;
    if power.Some? {
      var p := power.value;
      AtConcat(b, pos, [p.letter] + p.sign, p.digits);
      AtConcat(b, pos, [p.letter], p.sign);
      AtByte(b, pos, [p.letter], 0);
      if p.sign != [] {
        AtByte(b, pos + 1, p.sign, 0);
      } else {
        AtByte(b, pos + 1, p.digits, 0);
      }
      DigitsAt(b, pos + 1 + |p.sign|, p.digits);
    }
  }

  lemma WholeAt(b: seq<byte>, pos: nat, whole: seq<byte>)
    requires At(b, pos, whole) && SomeDigitsIn(whole) && (whole[0] == 48 ==> |whole| == 1)
    requires !Digit(b, pos + |whole|)
    ensures WholePart(b, pos) == Ok(pos + |whole|) && b[pos..pos + |whole|] == whole && Digit(b, pos)
  {
    hide SkipDigits;
    AtByte(b, pos, whole, 0);
    if whole[0] != 48 {
      DigitsAt(b, pos, whole);
    }
  }

  // What comes next after part of a number is no digit, and no point unless a fraction is due.
  lemma AfterDigits(b: seq<byte>, pos: nat, n: Numeral)
    requires LegalNumeral(n) && At(b, pos, FractionBytes(n.fraction) + PowerBytes(n.power))
    requires Ends(b, pos + |FractionBytes(n.fraction) + PowerBytes(n.power)|)
    ensures !Digit(b, pos) && !Digit(b, pos + |FractionBytes(n.fraction)|)
    ensures At(b, pos, FractionBytes(n.fraction)) && At(b, pos + |FractionBytes(n.fraction)|, PowerBytes(n.power))
    ensures n.fraction.None? ==> !Looking(b, pos, 46)
  {
    AtConcat(b, pos, FractionBytes(n.fraction), PowerBytes(n.power));
    if n.fraction.Some? {
      AtByte(b, pos, FractionBytes(n.fraction), 0);
    }
    if n.power.Some? {
      AtByte(b, pos + |FractionBytes(n.fraction)|, PowerBytes(n.power), 0);
    }
  }

  // Where the parts of a number at `pos` begin.
  function PartStarts(pos: nat, n: Numeral): (nat, nat, nat, nat)
  {
    var start := pos + if n.negative then 1 else 0;
    var f := start + |n.whole|;
    var e := f + |FractionBytes(n.fraction)|;
    (start, f, e, e + |PowerBytes(n.power)|)
  }

  // The parts of a number, each where it is to be.
  predicate PartsAt(b: seq<byte>, pos: nat, n: Numeral) {
    var (start, f, e, _) := PartStarts(pos, n);
    && (n.negative ==> Looking(b, pos, 45)) && At(b, start, n.whole)
    && At(b, f, FractionBytes(n.fraction)) && At(b, e, PowerBytes(n.power))
  }

  lemma PartsJoin(b: seq<byte>, pos: nat, n: Numeral)
    ensures At(b, pos, NumeralBytes(n)) <==> PartsAt(b, pos, n)
    ensures pos + |NumeralBytes(n)| == PartStarts(pos, n).3
  {
    hide FractionBytes, PowerBytes;
    var sign := if n.negative then [45] else [];
    var (start, f, e, _) := PartStarts(pos, n);
    SignAt(b, pos, n.negative);
    hide At;
    AtConcat(b, pos, sign, n.whole + (FractionBytes(n.fraction) + PowerBytes(n.power)));
    AtConcat(b, start, n.whole, FractionBytes(n.fraction) + PowerBytes(n.power));
    AtConcat(b, f, FractionBytes(n.fraction), PowerBytes(n.power));
    AtIsWithin(b, start, n.whole);
  }

  lemma AtIsWithin(b: seq<byte>, pos: nat, x: seq<byte>)
    ensures At(b, pos, x) ==> pos + |x| <= |b|
  {
  }

  lemma SignAt(b: seq<byte>, pos: nat, negative: bool)
    ensures negative ==> (At(b, pos, [45]) <==> Looking(b, pos, 45))
    ensures At(b, pos, []) <==> pos <= |b|
  {
    if At(b, pos, [45]) {
      AtByte(b, pos, [45], 0);
    }
  }

  // A number, from its parts.
  lemma NumberIs(b: seq<byte>, pos: nat, n: Numeral)
    requires LegalNumeral(n) && PartsAt(b, pos, n) && (n.negative <==> Looking(b, pos, 45))
    requires var (start, f, e, end) := PartStarts(pos, n);
             WholePart(b, start) == Ok(f) && Fraction(b, f) == Ok(e) && Exponent(b, e) == Ok(end)
    ensures pos <= |b| && NumberAt(b, pos) == Ok((NumeralMeans(n), pos + |NumeralBytes(n)|))
  {
    hide WholePart, Fraction, Exponent, FractionBytes, PowerBytes, NumeralBytes, Decimal.Value;
    var (start, f, e, end) := PartStarts(pos, n);
    NothingAfter(n);
    PartsJoin(b, pos, n);
    NumeralIsThere(b, pos, n);
    assert b[start..f] == n.whole;
  }

  lemma NumeralIsThere(b: seq<byte>, pos: nat, n: Numeral)
    requires At(b, pos, NumeralBytes(n))
    ensures pos + |NumeralBytes(n)| <= |b| && b[pos..pos + |NumeralBytes(n)|] == NumeralBytes(n)
  {
  }

  lemma NumeralReads(b: seq<byte>, pos: nat, n: Numeral)
    requires LegalNumeral(n) && At(b, pos, NumeralBytes(n)) && Ends(b, pos + |NumeralBytes(n)|)
    ensures NumberAt(b, pos) == Ok((NumeralMeans(n), pos + |NumeralBytes(n)|))
    ensures pos < |b| && (b[pos] == 45 || Decimal.IsDigit(b[pos]))
  {
    hide WholePart, Fraction, Exponent, FractionBytes, PowerBytes, Ends, NumberAt, NumeralMeans, NumeralBytes, At;
    var (start, f, e, end) := PartStarts(pos, n);
    PartsJoin(b, pos, n);
    AtConcat(b, f, FractionBytes(n.fraction), PowerBytes(n.power));
    AfterDigits(b, f, n);
    WholeAt(b, start, n.whole);
    FractionAt(b, f, n.fraction);
    PowerAt(b, e, n.power);
    NumberIs(b, pos, n);
  }

  // A number is no longer than its whole part exactly when it is whole.
  lemma NothingAfter(n: Numeral)
    requires LegalNumeral(n)
    ensures |FractionBytes(n.fraction)| + |PowerBytes(n.power)| == 0 <==> n.fraction.None? && n.power.None?
  {
  }

  lemma DigitsFrom(b: seq<byte>, pos: nat) returns (x: seq<byte>)
    requires pos <= |b| && SomeDigits(b, pos).Ok?
    ensures SomeDigitsIn(x) && At(b, pos, x) && SomeDigits(b, pos) == Ok(pos + |x|)
  {
    x := b[pos..SomeDigits(b, pos).value];
  }

  lemma FractionFrom(b: seq<byte>, pos: nat) returns (fraction: Option<seq<byte>>)
    requires pos <= |b| && Fraction(b, pos).Ok?
    ensures (fraction.Some? ==> SomeDigitsIn(fraction.value)) && At(b, pos, FractionBytes(fraction))
    ensures Fraction(b, pos) == Ok(pos + |FractionBytes(fraction)|)
  {
    hide SomeDigits;
    fraction := None;
    if Looking(b, pos, 46) {
      var x := DigitsFrom(b, pos + 1);
      fraction := Some(x);
      assert At(b, pos, [46]);
      AtConcat(b, pos, [46], x);
    }
  }

  lemma ByteAt(b: seq<byte>, pos: nat)
    requires pos < |b|
    ensures At(b, pos, [b[pos]])
  {
  }

  lemma PowerFrom(b: seq<byte>, pos: nat) returns (power: Option<Power>)
    requires pos <= |b| && Exponent(b, pos).Ok?
    ensures power.Some? ==> && (power.value.letter == 101 || power.value.letter == 69)
                            && (power.value.sign == [] || power.value.sign == [43] || power.value.sign == [45])
                            && SomeDigitsIn(power.value.digits)
    ensures At(b, pos, PowerBytes(power)) && Exponent(b, pos) == Ok(pos + |PowerBytes(power)|)
  {
    hide SomeDigits, At;
    power := None;
    if Looking(b, pos, 101) || Looking(b, pos, 69) {
      var sign := if Looking(b, pos + 1, 43) || Looking(b, pos + 1, 45) then [b[pos + 1]] else [];
      var x := DigitsFrom(b, pos + 1 + |sign|);
      power := Some(Power(b[pos], sign, x));
      ByteAt(b, pos);
      if sign != [] {
        ByteAt(b, pos + 1);
      } else {
        SignAt(b, pos + 1, false);
      }
      AtConcat(b, pos, [b[pos]], sign);
      AtConcat(b, pos, [b[pos]] + sign, x);
    } else {
      SignAt(b, pos, false);
    }
  }

  lemma WholeFrom(b: seq<byte>, pos: nat) returns (x: seq<byte>)
    requires pos <= |b| && WholePart(b, pos).Ok?
    ensures SomeDigitsIn(x) && (x[0] == 48 ==> |x| == 1) && At(b, pos, x) && WholePart(b, pos) == Ok(pos + |x|)
  {
    hide SkipDigits;
    x := b[pos..WholePart(b, pos).value];
  }

  lemma PartsAreThere(b: seq<byte>, pos: nat)
    requires pos <= |b| && NumberAt(b, pos).Ok?
    ensures var start := if Looking(b, pos, 45) then pos + 1 else pos;
            && WholePart(b, start).Ok? && Fraction(b, WholePart(b, start).value).Ok?
            && Exponent(b, Fraction(b, WholePart(b, start).value).value).Ok?
  {
    hide WholePart, Fraction, Exponent;
  }

  lemma NumeralFrom(b: seq<byte>, pos: nat) returns (n: Numeral)
    requires pos <= |b| && NumberAt(b, pos).Ok?
    ensures LegalNumeral(n) && At(b, pos, NumeralBytes(n))
    ensures NumberAt(b, pos) == Ok((NumeralMeans(n), pos + |NumeralBytes(n)|))
  {
    hide WholePart, Fraction, Exponent, FractionBytes, PowerBytes, NumberAt, NumeralMeans, NumeralBytes, At;
    PartsAreThere(b, pos);
    var negative := Looking(b, pos, 45);
    var start := if negative then pos + 1 else pos;
    var whole := WholeFrom(b, start);
    var fraction := FractionFrom(b, start + |whole|);
    var power := PowerFrom(b, start + |whole| + |FractionBytes(fraction)|);
    n := Numeral(negative, whole, fraction, power);
    PartsJoin(b, pos, n);
    NumberIs(b, pos, n);
  }

  // ----- values: what is spelled is read -----

  lemma TreeOpens(t: Tree)
    requires LegalTree(t)
    ensures TreeBytes(t) != [] && OpensValue(TreeBytes(t)[0]) && !Blank(TreeBytes(t)[0])
    ensures match t
            case NullTree => TreeBytes(t)[0] == 110
            case BoolTree(x) => TreeBytes(t)[0] == if x then 116 else 102
            case NumberTree(_) => TreeBytes(t)[0] == 45 || Decimal.IsDigit(TreeBytes(t)[0])
            case StringTree(_) => TreeBytes(t)[0] == 34
            case EmptyArray(_) => TreeBytes(t)[0] == 91
            case ArrayTree(_) => TreeBytes(t)[0] == 91
            case EmptyObject(_) => TreeBytes(t)[0] == 123
            case ObjectTree(_) => TreeBytes(t)[0] == 123
  {
    hide FractionBytes, PowerBytes;
  }

  // A value in place, after blanks and before what may follow it.
  lemma ValueStarts(b: seq<byte>, pos: nat, t: Tree)
    requires LegalTree(t) && At(b, pos, TreeBytes(t))
    ensures pos < |b| && b[pos] == TreeBytes(t)[0] && NotBlank(b, pos)
  {
    hide TreeBytes, Blank;
    TreeOpens(t);
    AtByte(b, pos, TreeBytes(t), 0);
  }

  lemma EndsAt(b: seq<byte>, pos: nat, after: seq<byte>, c: byte)
    requires At(b, pos, after + [c]) && AllBlank(after) && (c == 44 || c == 93 || c == 125)
    ensures Ends(b, pos) && pos <= |b| && SkipBlanks(b, pos) == pos + |after| && Looking(b, pos + |after|, c)
  {
    AtConcat(b, pos, after, [c]);
    AtByte(b, pos + |after|, [c], 0);
    BlanksSkipped(b, pos, after);
    if after != [] {
      AtByte(b, pos, after, 0);
    }
  }

  lemma {:induction false} TreeReads(b: seq<byte>, pos: nat, depth: nat, t: Tree)
    requires LegalTree(t) && At(b, pos, TreeBytes(t)) && Ends(b, pos + |TreeBytes(t)|)
    requires depth <= MAX_DEPTH && DistinctKeys(TreeMeans(t)) && Nested(TreeMeans(t), MAX_DEPTH - depth)
    ensures pos <= |b| && ValueAt(b, pos, depth) == Ok((TreeMeans(t), pos + |TreeBytes(t)|))
    decreases t, 1
  {
    hide StringAt, NumberAt, ArrayAt, ObjectAt, ItemsBytes, FieldsBytes, ItemsMean, FieldsMean, NumeralBytes,
         NumeralMeans, Quoted, Text, Ends, At, LegalItems, LegalFields, LegalNumeral, AllLegal, AllBlank, Fine,
         FineFields;
    TreeOpens(t);
    ValueStarts(b, pos, t);
    NestedIn(TreeMeans(t), depth);
    match t
    case NullTree => WordReads(b, pos, NULL);
    case BoolTree(x) => WordReads(b, pos, if x then TRUE else FALSE);
    case NumberTree(n) => NumeralReads(b, pos, n);
    case StringTree(pieces) => StringsExactly(b, pos, Text(pieces), pos + |Quoted(pieces)|);
    case EmptyArray(blank) => EmptyArrayReads(b, pos, depth, blank);
    case ArrayTree(items) => ArrayReads(b, pos, depth, items);
    case EmptyObject(blank) => EmptyObjectReads(b, pos, depth, blank);
    case ObjectTree(fields) => ObjectReads(b, pos, depth, fields);
  }

  lemma WordReads(b: seq<byte>, pos: nat, word: seq<byte>)
    requires At(b, pos, word)
    ensures pos <= |b| && word <= b[pos..]
  {
  }

  lemma EmptyArrayReads(b: seq<byte>, pos: nat, depth: nat, blank: seq<byte>)
    requires At(b, pos, [91] + (blank + [93])) && AllBlank(blank) && depth < MAX_DEPTH
    ensures pos < |b| && ArrayAt(b, pos, depth) == Ok((Array([]), pos + |[91] + (blank + [93])|))
  {
    AtConcat(b, pos, [91], blank + [93]);
    AtByte(b, pos, [91], 0);
    EndsAt(b, pos + 1, blank, 93);
  }

  lemma EmptyObjectReads(b: seq<byte>, pos: nat, depth: nat, blank: seq<byte>)
    requires At(b, pos, [123] + (blank + [125])) && AllBlank(blank) && depth < MAX_DEPTH
    ensures pos < |b| && ObjectAt(b, pos, depth) == Ok((Object([]), pos + |[123] + (blank + [125])|))
  {
    AtConcat(b, pos, [123], blank + [125]);
    AtByte(b, pos, [123], 0);
    EndsAt(b, pos + 1, blank, 125);
  }

  // Reading items does not depend on which of the blanks before them have been skipped.
  lemma ItemsAfterBlanks(b: seq<byte>, pos: nat, depth: nat, items: seq<Value>)
    requires pos <= |b|
    ensures ItemsAt(b, SkipBlanks(b, pos), depth, items) == ItemsAt(b, pos, depth, items)
  {
    hide ValueAt;
    BlanksFrom(b, pos);
  }

  lemma FieldsAfterBlanks(b: seq<byte>, pos: nat, depth: nat, fields: seq<(string, Value)>)
    requires pos <= |b|
    ensures FieldsAt(b, SkipBlanks(b, pos), depth, fields) == FieldsAt(b, pos, depth, fields)
  {
    hide ValueAt, NameAt;
    BlanksFrom(b, pos);
  }

  // An item and what ends it, in place.
  lemma ItemInPlace(b: seq<byte>, pos: nat, it: Items) returns (start: nat, end: nat, stop: nat)
    requires LegalItems(it) && At(b, pos, ItemsBytes(it))
    ensures start == pos + |it.before| && end == start + |TreeBytes(it.item)| && stop == end + |it.after|
    ensures pos <= |b| && SkipBlanks(b, pos) == start && At(b, start, TreeBytes(it.item)) && NotBlank(b, start)
    ensures start < |b| && OpensValue(b[start])
    ensures Ends(b, end) && SkipBlanks(b, end) == stop && stop < |b|
    ensures it.MoreItems? ==> b[stop] == 44 && At(b, stop + 1, ItemsBytes(it.rest))
                              && stop + 1 + |ItemsBytes(it.rest)| == pos + |ItemsBytes(it)|
    ensures it.LastItem? ==> b[stop] == 93 && stop + 1 == pos + |ItemsBytes(it)|
  {
    hide TreeBytes, At, Ends, AllBlank, LegalTree;
    start, end, stop := pos + |it.before|, pos + |it.before| + |TreeBytes(it.item)|,
      pos + |it.before| + |TreeBytes(it.item)| + |it.after|;
    var last: seq<byte> := if it.MoreItems? then [44] + ItemsBytes(it.rest) else [93];
    AtConcat(b, pos, it.before, TreeBytes(it.item) + (it.after + last));
    AtConcat(b, start, TreeBytes(it.item), it.after + last);
    if it.MoreItems? {
      assert it.after + last == (it.after + [44]) + ItemsBytes(it.rest);
      AtConcat(b, end, it.after + [44], ItemsBytes(it.rest));
      EndsAt(b, end, it.after, 44);
    } else {
      EndsAt(b, end, it.after, 93);
    }
    TreeOpens(it.item);
    ValueStarts(b, start, it.item);
    BlanksSkipped(b, pos, it.before);
  }

  lemma ItemsAtIs(b: seq<byte>, pos: nat, depth: nat, items: seq<Value>, item: Value, p: nat)
    requires pos <= |b| && ValueAt(b, SkipBlanks(b, pos), depth) == Ok((item, p))
    ensures var q := SkipBlanks(b, p);
            && (Looking(b, q, 44) ==> ItemsAt(b, pos, depth, items) == ItemsAt(b, q + 1, depth, items + [item]))
            && (Looking(b, q, 93) ==> ItemsAt(b, pos, depth, items) == Ok((Array(items + [item]), q + 1)))
  {
    hide ValueAt;
  }

  // Items that an array may hold at this depth.
  predicate Fine(items: seq<Value>, depth: nat) {
    depth <= MAX_DEPTH && forall k :: 0 <= k < |items| ==> DistinctKeys(items[k]) && Nested(items[k], MAX_DEPTH - depth)
  }

  lemma ItemsParts(it: Items, depth: nat)
    requires LegalItems(it) && Fine(ItemsMean(it), depth)
    ensures LegalTree(it.item) && DistinctKeys(TreeMeans(it.item))
    ensures depth <= MAX_DEPTH && Nested(TreeMeans(it.item), MAX_DEPTH - depth)
    ensures it.LastItem? ==> ItemsMean(it) == [TreeMeans(it.item)]
    ensures it.MoreItems? ==> && LegalItems(it.rest) && ItemsMean(it) == [TreeMeans(it.item)] + ItemsMean(it.rest)
                              && Fine(ItemsMean(it.rest), depth)
  {
    hide TreeMeans, DistinctKeys, Nested, LegalTree, AllBlank;
    var all := ItemsMean(it);
    assert all[0] == TreeMeans(it.item);
    if it.MoreItems? {
      assert forall k :: 0 <= k < |ItemsMean(it.rest)| ==> ItemsMean(it.rest)[k] == all[k + 1];
    }
  }

  lemma {:induction false} ItemsRead(b: seq<byte>, pos: nat, depth: nat, items: seq<Value>, it: Items)
    requires LegalItems(it) && At(b, pos, ItemsBytes(it)) && Fine(ItemsMean(it), depth)
    ensures pos <= |b| && ItemsAt(b, pos, depth, items) == Ok((Array(items + ItemsMean(it)), pos + |ItemsBytes(it)|))
    decreases it, 0
  {
    hide ValueAt, ItemsAt, At, Ends, TreeBytes, TreeMeans, DistinctKeys, Nested, LegalTree, LegalItems, ItemsMean, Fine,
         ItemsBytes;
    ItemsParts(it, depth);
    var start, end, stop := ItemInPlace(b, pos, it);
    var item := TreeMeans(it.item);
    TreeReads(b, start, depth, it.item);
    ItemsAtIs(b, pos, depth, items, item, end);
    if it.MoreItems? {
      ItemsRead(b, stop + 1, depth, items + [item], it.rest);
      assert items + ItemsMean(it) == (items + [item]) + ItemsMean(it.rest);
    }
  }

  lemma NestedIn(v: Value, depth: nat)
    requires depth <= MAX_DEPTH && DistinctKeys(v) && Nested(v, MAX_DEPTH - depth)
    ensures v.Array? ==> depth < MAX_DEPTH && Fine(v.items, depth + 1)
    ensures v.Object? ==> depth < MAX_DEPTH && FineFields(v.fields, depth + 1)
  {
  }

  predicate FineFields(fields: seq<(string, Value)>, depth: nat) {
    && depth <= MAX_DEPTH && DistinctNames(fields)
    && forall k :: 0 <= k < |fields| ==> DistinctKeys(fields[k].1) && Nested(fields[k].1, MAX_DEPTH - depth)
  }

  lemma ArrayOpens(b: seq<byte>, pos: nat, depth: nat)
    requires Looking(b, pos, 91) && depth < MAX_DEPTH
    ensures ArrayAt(b, pos, depth)
         == if Looking(b, SkipBlanks(b, pos + 1), 93) then Ok((Array([]), SkipBlanks(b, pos + 1) + 1))
            else ItemsAt(b, SkipBlanks(b, pos + 1), depth + 1, [])
  {
    hide ItemsAt;
  }

  lemma ArrayReads(b: seq<byte>, pos: nat, depth: nat, items: Items)
    requires LegalItems(items) && At(b, pos, [91] + ItemsBytes(items))
    requires depth < MAX_DEPTH && Fine(ItemsMean(items), depth + 1)
    ensures pos < |b| && ArrayAt(b, pos, depth) == Ok((Array(ItemsMean(items)), pos + 1 + |ItemsBytes(items)|))
    decreases items, 1
  {
    hide ValueAt, ItemsAt, ArrayAt, At, Ends, LegalItems, ItemsBytes, ItemsMean, Fine;
    AtConcat(b, pos, [91], ItemsBytes(items));
    AtIsWithin(b, pos, [91]);
    AtByte(b, pos, [91], 0);
    ArrayOpens(b, pos, depth);
    var start, _, _ := ItemInPlace(b, pos + 1, items);
    ItemsRead(b, pos + 1, depth + 1, [], items);
    ItemsAfterBlanks(b, pos + 1, depth + 1, []);
    assert [] + ItemsMean(items) == ItemsMean(items);
  }

  // A field and what ends it, in place.
  lemma NameInPlace(b: seq<byte>, pos: nat, f: Fields) returns (start: nat, colon: nat, value: nat)
    requires LegalFields(f) && At(b, pos, FieldsBytes(f))
    ensures start == pos + |f.before| && colon == start + |Quoted(f.name)| + |f.gap| && value == colon + 1 + |f.lead|
    ensures pos <= |b| && SkipBlanks(b, pos) == start && At(b, start, Quoted(f.name)) && Looking(b, start, 34)
    ensures start + |Quoted(f.name)| <= |b| && SkipBlanks(b, start + |Quoted(f.name)|) == colon && Looking(b, colon, 58)
    ensures SkipBlanks(b, colon + 1) == value && At(b, value, TreeBytes(f.value) + FieldTail(f))
  {
    hide TreeBytes, At, AllBlank, LegalTree, AllLegal, Quoted, FieldTail;
    start := pos + |f.before|;
    colon := start + |Quoted(f.name)| + |f.gap|;
    value := colon + 1 + |f.lead|;
    var rest := TreeBytes(f.value) + FieldTail(f);
    FieldsBytesAre(f);
    AtConcat(b, pos, f.before, Quoted(f.name) + (f.gap + ([58] + (f.lead + rest))));
    AtConcat(b, start, Quoted(f.name), f.gap + ([58] + (f.lead + rest)));
    AtConcat(b, start + |Quoted(f.name)|, f.gap, [58] + (f.lead + rest));
    AtConcat(b, colon, [58], f.lead + rest);
    AtConcat(b, colon + 1, f.lead, rest);
    AtConcat(b, value, TreeBytes(f.value), FieldTail(f));
    AtIsWithin(b, colon, [58]);
    AtByte(b, colon, [58], 0);
    ValueStarts(b, value, f.value);
    QuoteStarts(b, start, f.name);
    BlanksSkipped(b, pos, f.before);
    BlanksSkipped(b, start + |Quoted(f.name)|, f.gap);
    BlanksSkipped(b, colon + 1, f.lead);
  }

  // What follows a field's value: blanks, and a comma and more fields or the end.
  function FieldTail(f: Fields): seq<byte>
    requires LegalFields(f)
  {
    f.after + if f.MoreFields? then [44] + FieldsBytes(f.rest) else [125]
  }

  lemma FieldsBytesAre(f: Fields)
    requires LegalFields(f)
    ensures FieldsBytes(f)
         == f.before + (Quoted(f.name) + (f.gap + ([58] + (f.lead + (TreeBytes(f.value) + FieldTail(f))))))
  {
    hide TreeBytes, AllBlank, LegalTree, AllLegal, Quoted;
  }

  lemma QuoteStarts(b: seq<byte>, pos: nat, pieces: seq<Piece>)
    requires AllLegal(pieces) && At(b, pos, Quoted(pieces))
    ensures Looking(b, pos, 34) && NotBlank(b, pos) && pos + |Quoted(pieces)| <= |b|
  {
    hide AllLegal, Spellings;
    AtByte(b, pos, Quoted(pieces), 0);
  }

  lemma TailInPlace(b: seq<byte>, pos: nat, f: Fields) returns (end: nat, stop: nat)
    requires LegalFields(f) && At(b, pos, TreeBytes(f.value) + FieldTail(f))
    ensures end == pos + |TreeBytes(f.value)| && stop == end + |f.after|
    ensures At(b, pos, TreeBytes(f.value)) && Ends(b, end) && SkipBlanks(b, end) == stop && stop < |b|
    ensures f.MoreFields? ==> b[stop] == 44 && At(b, stop + 1, FieldsBytes(f.rest))
                              && stop + 1 + |FieldsBytes(f.rest)| == pos + |TreeBytes(f.value) + FieldTail(f)|
    ensures f.LastField? ==> b[stop] == 125 && stop + 1 == pos + |TreeBytes(f.value) + FieldTail(f)|
  {
    hide TreeBytes, At, Ends, AllBlank, LegalTree, AllLegal, FieldsBytes;
    end, stop := pos + |TreeBytes(f.value)|, pos + |TreeBytes(f.value)| + |f.after|;
    AtConcat(b, pos, TreeBytes(f.value), FieldTail(f));
    if f.MoreFields? {
      assert FieldTail(f) == (f.after + [44]) + FieldsBytes(f.rest);
      AtConcat(b, end, f.after + [44], FieldsBytes(f.rest));
      EndsAt(b, end, f.after, 44);
    } else {
      EndsAt(b, end, f.after, 125);
    }
  }

  lemma NameReads(b: seq<byte>, pos: nat, fields: seq<(string, Value)>, name: seq<Piece>, colon: nat, value: nat)
    requires AllLegal(name) && At(b, pos, Quoted(name)) && Looking(b, pos, 34) && !Named(fields, Text(name))
    requires pos + |Quoted(name)| <= |b| && SkipBlanks(b, pos + |Quoted(name)|) == colon && Looking(b, colon, 58)
    requires SkipBlanks(b, colon + 1) == value
    ensures NameAt(b, pos, fields) == Ok((Text(name), value))
  {
    hide StringAt, At, AllLegal, Quoted, Text, Named;
    StringsExactly(b, pos, Text(name), pos + |Quoted(name)|);
  }

  lemma FieldsAtIs(b: seq<byte>, pos: nat, depth: nat, fields: seq<(string, Value)>, name: string, start: nat,
                   value: Value, p: nat)
    requires pos <= |b| && NameAt(b, SkipBlanks(b, pos), fields) == Ok((name, start))
    requires start <= |b| && ValueAt(b, start, depth) == Ok((value, p))
    ensures var q := SkipBlanks(b, p);
            && (Looking(b, q, 44) ==>
                  FieldsAt(b, pos, depth, fields) == FieldsAt(b, q + 1, depth, fields + [(name, value)]))
            && (Looking(b, q, 125) ==> FieldsAt(b, pos, depth, fields) == Ok((Object(fields + [(name, value)]), q + 1)))
  {
    hide ValueAt, NameAt;
  }

  lemma FieldsParts(fields: seq<(string, Value)>, f: Fields, depth: nat)
    requires LegalFields(f) && FineFields(fields + FieldsMean(f), depth)
    ensures LegalTree(f.value) && AllLegal(f.name) && DistinctKeys(TreeMeans(f.value))
    ensures depth <= MAX_DEPTH && Nested(TreeMeans(f.value), MAX_DEPTH - depth) && !Named(fields, Text(f.name))
    ensures f.LastField? ==> FieldsMean(f) == [(Text(f.name), TreeMeans(f.value))]
    ensures f.MoreFields? ==> && LegalFields(f.rest)
                              && FieldsMean(f) == [(Text(f.name), TreeMeans(f.value))] + FieldsMean(f.rest)
                              && fields + FieldsMean(f)
                                 == (fields + [(Text(f.name), TreeMeans(f.value))]) + FieldsMean(f.rest)
                              && FineFields((fields + [(Text(f.name), TreeMeans(f.value))]) + FieldsMean(f.rest), depth)
  {
    hide TreeMeans, DistinctKeys, Nested, LegalTree, AllBlank, AllLegal, Text;
    var all := fields + FieldsMean(f);
    assert all[|fields|] == (Text(f.name), TreeMeans(f.value));
    assert forall k :: 0 <= k < |fields| ==> all[k] == fields[k];
    if f.MoreFields? {
      assert all == (fields + [(Text(f.name), TreeMeans(f.value))]) + FieldsMean(f.rest);
    }
  }

  lemma {:induction false} FieldsRead(b: seq<byte>, pos: nat, depth: nat, fields: seq<(string, Value)>, f: Fields)
    requires LegalFields(f) && At(b, pos, FieldsBytes(f)) && FineFields(fields + FieldsMean(f), depth)
    ensures pos <= |b|
    ensures FieldsAt(b, pos, depth, fields) == Ok((Object(fields + FieldsMean(f)), pos + |FieldsBytes(f)|))
    decreases f, 0
  {
    hide ValueAt, NameAt, FieldsAt, At, Ends, TreeBytes, TreeMeans, DistinctKeys, Nested, LegalTree, LegalFields,
         FieldsMean, FineFields, FieldsBytes, FieldTail, Quoted, Text, AllLegal, Named;
    FieldsParts(fields, f, depth);
    FieldsBytesAre(f);
    var start, colon, value := NameInPlace(b, pos, f);
    var end, stop := TailInPlace(b, value, f);
    var field := (Text(f.name), TreeMeans(f.value));
    NameReads(b, start, fields, f.name, colon, value);
    TreeReads(b, value, depth, f.value);
    FieldsAtIs(b, pos, depth, fields, field.0, value, field.1, end);
    if f.MoreFields? {
      FieldsRead(b, stop + 1, depth, fields + [field], f.rest);
    }
  }

  lemma ObjectOpens(b: seq<byte>, pos: nat, depth: nat)
    requires Looking(b, pos, 123) && depth < MAX_DEPTH
    ensures ObjectAt(b, pos, depth)
         == if Looking(b, SkipBlanks(b, pos + 1), 125) then Ok((Object([]), SkipBlanks(b, pos + 1) + 1))
            else FieldsAt(b, SkipBlanks(b, pos + 1), depth + 1, [])
  {
    hide FieldsAt;
  }

  lemma ObjectReads(b: seq<byte>, pos: nat, depth: nat, fields: Fields)
    requires LegalFields(fields) && At(b, pos, [123] + FieldsBytes(fields))
    requires depth < MAX_DEPTH && FineFields(FieldsMean(fields), depth + 1)
    ensures pos < |b| && ObjectAt(b, pos, depth) == Ok((Object(FieldsMean(fields)), pos + 1 + |FieldsBytes(fields)|))
    decreases fields, 1
  {
    hide ValueAt, FieldsAt, ObjectAt, At, Ends, LegalFields, FieldsBytes, FieldsMean, FineFields, Quoted;
    AtConcat(b, pos, [123], FieldsBytes(fields));
    AtIsWithin(b, pos, [123]);
    AtByte(b, pos, [123], 0);
    ObjectOpens(b, pos, depth);
    var start, _, _ := NameInPlace(b, pos + 1, fields);
    assert [] + FieldsMean(fields) == FieldsMean(fields);
    FieldsRead(b, pos + 1, depth + 1, [], fields);
    FieldsAfterBlanks(b, pos + 1, depth + 1, []);
  }

  // ----- values: what is read is spelled -----

  // These bytes spell this value and end there.
  ghost predicate Spelled(b: seq<byte>, pos: nat, t: Tree, v: Value, end: nat) {
    LegalTree(t) && At(b, pos, TreeBytes(t)) && v == TreeMeans(t) && end == pos + |TreeBytes(t)|
  }

  lemma {:induction false} TreeFrom(b: seq<byte>, pos: nat, depth: nat) returns (t: Tree)
    requires pos <= |b| && ValueAt(b, pos, depth).Ok?
    ensures Spelled(b, pos, t, ValueAt(b, pos, depth).value.0, ValueAt(b, pos, depth).value.1)
    decreases |b| - pos, 2
  {
    hide StringAt, NumberAt, ArrayAt, ObjectAt, At, Quoted, Text, NumeralBytes, NumeralMeans, AllLegal, LegalNumeral,
         Spelled;
    var c := b[pos];
    if c == 110 {
      WordFrom(b, pos, NULL);
      t := NullTree;
      SpelledWord(b, pos, t);
    } else if c == 116 {
      WordFrom(b, pos, TRUE);
      t := BoolTree(true);
      SpelledWord(b, pos, t);
    } else if c == 102 {
      WordFrom(b, pos, FALSE);
      t := BoolTree(false);
      SpelledWord(b, pos, t);
    } else if c == 34 {
      t := StringFrom(b, pos);
    } else if c == 91 {
      t := ArrayFrom(b, pos, depth);
    } else if c == 123 {
      t := ObjectFrom(b, pos, depth);
    } else {
      var n := NumeralFrom(b, pos);
      t := NumberTree(n);
      SpelledNumber(b, pos, n);
    }
  }

  lemma WordFrom(b: seq<byte>, pos: nat, word: seq<byte>)
    requires pos <= |b|
    ensures word <= b[pos..] ==> At(b, pos, word)
  {
    if word <= b[pos..] {
      assert b[pos..][..|word|] == b[pos..pos + |word|];
    }
  }

  lemma SpelledWord(b: seq<byte>, pos: nat, t: Tree)
    requires (t.NullTree? || t.BoolTree?) && At(b, pos, TreeBytes(t))
    ensures Spelled(b, pos, t, TreeMeans(t), pos + |TreeBytes(t)|)
  {
  }

  lemma SpelledNumber(b: seq<byte>, pos: nat, n: Numeral)
    requires LegalNumeral(n) && At(b, pos, NumeralBytes(n))
    ensures Spelled(b, pos, NumberTree(n), NumeralMeans(n), pos + |NumeralBytes(n)|)
  {
    hide NumeralBytes, NumeralMeans, LegalNumeral, At;
  }

  lemma StringFrom(b: seq<byte>, pos: nat) returns (t: Tree)
    requires pos <= |b| && StringAt(b, pos).Ok?
    ensures Spelled(b, pos, t, String(StringAt(b, pos).value.0), StringAt(b, pos).value.1)
  {
    hide StringAt, At, Quoted, Text, AllLegal;
    var (s, end) := StringAt(b, pos).value;
    StringsExactly(b, pos, s, end);
    var pieces :| AllLegal(pieces) && At(b, pos, Quoted(pieces)) && s == Text(pieces) && end == pos + |Quoted(pieces)|;
    t := StringTree(pieces);
  }

  lemma OneAt(b: seq<byte>, pos: nat, c: byte)
    ensures Looking(b, pos, c) <==> At(b, pos, [c])
  {
    if At(b, pos, [c]) {
      AtByte(b, pos, [c], 0);
    }
  }

  lemma ArrayFrom(b: seq<byte>, pos: nat, depth: nat) returns (t: Tree)
    requires pos <= |b| && ArrayAt(b, pos, depth).Ok?
    ensures Spelled(b, pos, t, ArrayAt(b, pos, depth).value.0, ArrayAt(b, pos, depth).value.1)
    decreases |b| - pos, 1
  {
    hide ItemsAt, At, ItemsBytes, ItemsMean, LegalItems;
    assert Looking(b, pos, 91) && depth < MAX_DEPTH;
    OneAt(b, pos, 91);
    var q := SkipBlanks(b, pos + 1);
    if Looking(b, q, 93) {
      BlanksFrom(b, pos + 1);
      var blank := b[pos + 1..q];
      OneAt(b, q, 93);
      AtConcat(b, pos + 1, blank, [93]);
      AtConcat(b, pos, [91], blank + [93]);
      t := EmptyArray(blank);
    } else {
      ItemsAfterBlanks(b, pos + 1, depth + 1, []);
      var items := ItemsFrom(b, pos + 1, depth + 1, []);
      assert [] + ItemsMean(items) == ItemsMean(items);
      AtConcat(b, pos, [91], ItemsBytes(items));
      t := ArrayTree(items);
    }
  }

  // An item read, and what ends it.
  lemma ItemIsThere(b: seq<byte>, pos: nat, depth: nat, items: seq<Value>)
    requires pos <= |b| && ItemsAt(b, pos, depth, items).Ok?
    ensures ValueAt(b, SkipBlanks(b, pos), depth).Ok?
    ensures var (item, p) := ValueAt(b, SkipBlanks(b, pos), depth).value;
            var q := SkipBlanks(b, p);
            && (Looking(b, q, 44) || Looking(b, q, 93))
            && (Looking(b, q, 44) ==> ItemsAt(b, pos, depth, items) == ItemsAt(b, q + 1, depth, items + [item]))
            && (Looking(b, q, 93) ==> ItemsAt(b, pos, depth, items) == Ok((Array(items + [item]), q + 1)))
  {
    hide ValueAt;
  }

  // What a list of items is, from its first and the rest.
  lemma ItemsAre(it: Items)
    requires AllBlank(it.before) && LegalTree(it.item) && AllBlank(it.after) && (it.MoreItems? ==> LegalItems(it.rest))
    ensures LegalItems(it)
    ensures |ItemsBytes(it)| == |it.before| + |TreeBytes(it.item)| + |it.after| + 1
                                + if it.MoreItems? then |ItemsBytes(it.rest)| else 0
    ensures ItemsMean(it) == [TreeMeans(it.item)] + if it.MoreItems? then ItemsMean(it.rest) else []
  {
    hide TreeBytes, TreeMeans, LegalTree, AllBlank;
  }

  lemma {:induction false} ItemsFrom(b: seq<byte>, pos: nat, depth: nat, items: seq<Value>) returns (it: Items)
    requires pos <= |b| && ItemsAt(b, pos, depth, items).Ok?
    ensures LegalItems(it) && At(b, pos, ItemsBytes(it))
    ensures ItemsAt(b, pos, depth, items) == Ok((Array(items + ItemsMean(it)), pos + |ItemsBytes(it)|))
    decreases |b| - pos, 3
  {
    hide ValueAt, ItemsAt, At, TreeBytes, TreeMeans, LegalTree, AllBlank, LegalItems, ItemsBytes, ItemsMean;
    ItemIsThere(b, pos, depth, items);
    var start := SkipBlanks(b, pos);
    var (item, p) := ValueAt(b, start, depth).value;
    var q := SkipBlanks(b, p);
    BlanksFrom(b, pos);
    BlanksFrom(b, p);
    var before, after := b[pos..start], b[p..q];
    var t := TreeFrom(b, start, depth);
    if b[q] == 44 {
      var rest := ItemsFrom(b, q + 1, depth, items + [item]);
      it := MoreItems(before, t, after, rest);
      ItemsAre(it);
      OneAt(b, q, 44);
      ItemsJoin(b, pos, it);
      assert items + ItemsMean(it) == (items + [item]) + ItemsMean(rest);
    } else {
      it := LastItem(before, t, after);
      ItemsAre(it);
      OneAt(b, q, 93);
      ItemsJoin(b, pos, it);
      assert ItemsMean(it) == [item];
    }
  }

  lemma ItemsJoin(b: seq<byte>, pos: nat, it: Items)
    requires LegalItems(it) && At(b, pos, it.before) && At(b, pos + |it.before|, TreeBytes(it.item))
    requires At(b, pos + |it.before| + |TreeBytes(it.item)|, it.after)
    requires var stop := pos + |it.before| + |TreeBytes(it.item)| + |it.after|;
             if it.MoreItems? then At(b, stop, [44]) && At(b, stop + 1, ItemsBytes(it.rest)) else At(b, stop, [93])
    ensures At(b, pos, ItemsBytes(it))
  {
    hide At, TreeBytes, LegalTree, AllBlank;
    var stop := pos + |it.before| + |TreeBytes(it.item)| + |it.after|;
    var last: seq<byte> := if it.MoreItems? then [44] + ItemsBytes(it.rest) else [93];
    if it.MoreItems? {
      AtConcat(b, stop, [44], ItemsBytes(it.rest));
    }
    AtConcat(b, pos + |it.before| + |TreeBytes(it.item)|, it.after, last);
    AtConcat(b, pos + |it.before|, TreeBytes(it.item), it.after + last);
    AtConcat(b, pos, it.before, TreeBytes(it.item) + (it.after + last));
  }

  lemma ObjectFrom(b: seq<byte>, pos: nat, depth: nat) returns (t: Tree)
    requires pos <= |b| && ObjectAt(b, pos, depth).Ok?
    ensures Spelled(b, pos, t, ObjectAt(b, pos, depth).value.0, ObjectAt(b, pos, depth).value.1)
    decreases |b| - pos, 1
  {
    hide FieldsAt, At, FieldsBytes, FieldsMean, LegalFields;
    assert Looking(b, pos, 123) && depth < MAX_DEPTH;
    OneAt(b, pos, 123);
    var q := SkipBlanks(b, pos + 1);
    if Looking(b, q, 125) {
      BlanksFrom(b, pos + 1);
      var blank := b[pos + 1..q];
      OneAt(b, q, 125);
      AtConcat(b, pos + 1, blank, [125]);
      AtConcat(b, pos, [123], blank + [125]);
      t := EmptyObject(blank);
    } else {
      FieldsAfterBlanks(b, pos + 1, depth + 1, []);
      var fields := FieldsFrom(b, pos + 1, depth + 1, []);
      assert [] + FieldsMean(fields) == FieldsMean(fields);
      AtConcat(b, pos, [123], FieldsBytes(fields));
      t := ObjectTree(fields);
    }
  }

  lemma FieldIsThere(b: seq<byte>, pos: nat, depth: nat, fields: seq<(string, Value)>)
    requires pos <= |b| && FieldsAt(b, pos, depth, fields).Ok?
    ensures NameAt(b, SkipBlanks(b, pos), fields).Ok?
    ensures var (name, start) := NameAt(b, SkipBlanks(b, pos), fields).value;
            && ValueAt(b, start, depth).Ok?
            && var (value, p) := ValueAt(b, start, depth).value;
               var q := SkipBlanks(b, p);
               && (Looking(b, q, 44) || Looking(b, q, 125))
               && (Looking(b, q, 44) ==>
                     FieldsAt(b, pos, depth, fields) == FieldsAt(b, q + 1, depth, fields + [(name, value)]))
               && (Looking(b, q, 125) ==>
                     FieldsAt(b, pos, depth, fields) == Ok((Object(fields + [(name, value)]), q + 1)))
  {
    hide ValueAt, NameAt;
  }

  // A name read, with its colon and the blanks around it.
  lemma NameFrom(b: seq<byte>, pos: nat, fields: seq<(string, Value)>)
    returns (name: seq<Piece>, gap: seq<byte>, lead: seq<byte>)
    requires pos <= |b| && NameAt(b, pos, fields).Ok?
    ensures AllLegal(name) && AllBlank(gap) && AllBlank(lead)
    ensures At(b, pos, Quoted(name)) && At(b, pos + |Quoted(name)|, gap)
    ensures var colon := pos + |Quoted(name)| + |gap|;
            && At(b, colon, [58]) && At(b, colon + 1, lead)
            && NameAt(b, pos, fields) == Ok((Text(name), colon + 1 + |lead|))
  {
    hide StringAt, At, AllLegal, Quoted, Text, Named, AllBlank;
    var (s, p) := StringAt(b, pos).value;
    StringsExactly(b, pos, s, p);
    name :| AllLegal(name) && At(b, pos, Quoted(name)) && s == Text(name) && p == pos + |Quoted(name)|;
    var colon := SkipBlanks(b, p);
    var value := SkipBlanks(b, colon + 1);
    BlanksFrom(b, p);
    BlanksFrom(b, colon + 1);
    OneAt(b, colon, 58);
    gap, lead := b[p..colon], b[colon + 1..value];
  }

  // What a list of fields is, from its first and the rest.
  lemma FieldsAre(f: Fields)
    requires AllBlank(f.before) && AllLegal(f.name) && AllBlank(f.gap) && AllBlank(f.lead)
    requires LegalTree(f.value) && AllBlank(f.after) && (f.MoreFields? ==> LegalFields(f.rest))
    ensures LegalFields(f)
    ensures |FieldsBytes(f)| == |f.before| + |Quoted(f.name)| + |f.gap| + 1 + |f.lead| + |TreeBytes(f.value)|
                                + |f.after| + 1 + if f.MoreFields? then |FieldsBytes(f.rest)| else 0
    ensures FieldsMean(f) == [(Text(f.name), TreeMeans(f.value))] + if f.MoreFields? then FieldsMean(f.rest) else []
  {
    hide TreeBytes, TreeMeans, LegalTree, AllBlank, AllLegal, Quoted, Text;
  }

  lemma {:induction false} FieldsFrom(b: seq<byte>, pos: nat, depth: nat, fields: seq<(string, Value)>)
    returns (f: Fields)
    requires pos <= |b| && FieldsAt(b, pos, depth, fields).Ok?
    ensures LegalFields(f) && At(b, pos, FieldsBytes(f))
    ensures FieldsAt(b, pos, depth, fields) == Ok((Object(fields + FieldsMean(f)), pos + |FieldsBytes(f)|))
    decreases |b| - pos, 3
  {
    hide ValueAt, FieldsAt, NameAt, At, TreeBytes, TreeMeans, LegalTree, AllBlank, AllLegal, Quoted, Text, LegalFields,
         FieldsBytes, FieldsMean;
    FieldIsThere(b, pos, depth, fields);
    var start := SkipBlanks(b, pos);
    var (named, v) := NameAt(b, start, fields).value;
    var (value, p) := ValueAt(b, v, depth).value;
    var q := SkipBlanks(b, p);
    BlanksFrom(b, pos);
    BlanksFrom(b, p);
    var before, after := b[pos..start], b[p..q];
    var name, gap, lead := NameFrom(b, start, fields);
    var t := TreeFrom(b, v, depth);
    if b[q] == 44 {
      var rest := FieldsFrom(b, q + 1, depth, fields + [(named, value)]);
      f := MoreFields(before, name, gap, lead, t, after, rest);
      FieldsAre(f);
      OneAt(b, q, 44);
      FieldsJoin(b, pos, f);
      assert fields + FieldsMean(f) == (fields + [(named, value)]) + FieldsMean(rest);
    } else {
      f := LastField(before, name, gap, lead, t, after);
      FieldsAre(f);
      OneAt(b, q, 125);
      FieldsJoin(b, pos, f);
      assert FieldsMean(f) == [(named, value)];
    }
  }

  lemma FieldsJoin(b: seq<byte>, pos: nat, f: Fields)
    requires LegalFields(f) && At(b, pos, f.before) && At(b, pos + |f.before|, Quoted(f.name))
    requires var p := pos + |f.before| + |Quoted(f.name)|;
             && At(b, p, f.gap) && At(b, p + |f.gap|, [58]) && At(b, p + |f.gap| + 1, f.lead)
             && var v := p + |f.gap| + 1 + |f.lead|;
                && At(b, v, TreeBytes(f.value)) && At(b, v + |TreeBytes(f.value)|, f.after)
                && var stop := v + |TreeBytes(f.value)| + |f.after|;
                   if f.MoreFields? then At(b, stop, [44]) && At(b, stop + 1, FieldsBytes(f.rest))
                    else At(b, stop, [125])
    ensures At(b, pos, FieldsBytes(f))
  {
    hide At, TreeBytes, LegalTree, AllBlank, AllLegal, Quoted, FieldsBytes;
    FieldsBytesAre(f);
    var p := pos + |f.before| + |Quoted(f.name)|;
    var v := p + |f.gap| + 1 + |f.lead|;
    var stop := v + |TreeBytes(f.value)| + |f.after|;
    var rest := TreeBytes(f.value) + FieldTail(f);
    if f.MoreFields? {
      AtConcat(b, stop, [44], FieldsBytes(f.rest));
    }
    AtConcat(b, v + |TreeBytes(f.value)|, f.after, if f.MoreFields? then [44] + FieldsBytes(f.rest) else [125]);
    AtConcat(b, v, TreeBytes(f.value), FieldTail(f));
    AtConcat(b, p + |f.gap| + 1, f.lead, rest);
    AtConcat(b, p + |f.gap|, [58], f.lead + rest);
    AtConcat(b, p, f.gap, [58] + (f.lead + rest));
    AtConcat(b, pos + |f.before|, Quoted(f.name), f.gap + ([58] + (f.lead + rest)));
    AtConcat(b, pos, f.before, Quoted(f.name) + (f.gap + ([58] + (f.lead + rest))));
  }

  // ----- whole documents -----

  // The bytes are this tree with blanks before and after.
  predicate IsDocument(b: seq<byte>, before: seq<byte>, t: Tree, after: seq<byte>) {
    AllBlank(before) && LegalTree(t) && AllBlank(after) && b == before + TreeBytes(t) + after
  }

  lemma DocumentReads(b: seq<byte>, before: seq<byte>, t: Tree, after: seq<byte>)
    requires IsDocument(b, before, t, after) && DistinctKeys(TreeMeans(t)) && Nested(TreeMeans(t), MAX_DEPTH)
    ensures Document(b) == Ok(TreeMeans(t))
  {
    hide ValueAt, TreeBytes, TreeMeans, LegalTree, DistinctKeys, Nested;
    var start := |before|;
    var end := start + |TreeBytes(t)|;
    assert b[0..start] == before && b[start..end] == TreeBytes(t) && b[end..|b|] == after;
    ValueStarts(b, start, t);
    BlanksSkipped(b, 0, before);
    BlanksSkipped(b, end, after);
    assert end < |b| ==> b[end] == after[0];
    TreeReads(b, start, 0, t);
  }

  /**
   Documents, exactly. The reader accepts these bytes as this value if and only
   if they are a document of the grammar that means it, with blanks wherever the
   grammar has them, no object of it repeats a name, and nesting is at most 64.
   */
  lemma DocumentsExactly(b: seq<byte>, v: Value)
    ensures Document(b) == Ok(v)
       <==> && DistinctKeys(v) && Nested(v, MAX_DEPTH)
            && exists before, t, after :: IsDocument(b, before, t, after) && v == TreeMeans(t)
  {
    hide ValueAt, TreeBytes, TreeMeans, LegalTree, DistinctKeys, Nested, At, AllBlank;
    if Document(b) == Ok(v) {
      var p := SkipBlanks(b, 0);
      var q := ValueAt(b, p, 0).value.1;
      AcceptedValueSound(b, p, 0);
      var t := TreeFrom(b, p, 0);
      BlanksFrom(b, 0);
      BlanksFrom(b, q);
      TreeIsThere(b, p, t);
      assert b[..p] == b[0..p] && b[q..] == b[q..|b|];
      assert b == b[..p] + b[p..q] + b[q..];
      assert IsDocument(b, b[..p], t, b[q..]);
    }
    forall before, t, after
      | IsDocument(b, before, t, after) && DistinctKeys(TreeMeans(t)) && Nested(TreeMeans(t), MAX_DEPTH)
      ensures Document(b) == Ok(TreeMeans(t))
    {
      DocumentReads(b, before, t, after);
    }
  }

  lemma TreeIsThere(b: seq<byte>, pos: nat, t: Tree)
    requires LegalTree(t) && At(b, pos, TreeBytes(t))
    ensures pos + |TreeBytes(t)| <= |b| && b[pos..pos + |TreeBytes(t)|] == TreeBytes(t)
  {
    hide TreeBytes, LegalTree;
  }
}
