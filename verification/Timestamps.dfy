/** UTC timestamps and their fixed RFC 3339 form, YYYY-MM-DDTHH:MM:SSZ. */
module Timestamps {
  import opened Wrappers
  import opened Bytes
  import opened Calendar
  import Decimal
  import Utf8

  const MIN_UNIX := -62167219200
  const MAX_UNIX := 253402300799

  // A Unix time whose year has four digits.
  type Timestamp = t: int | MIN_UNIX <= t <= MAX_UNIX

  function FromUnix(seconds: int): (t: Timestamp)
    ensures MIN_UNIX <= seconds <= MAX_UNIX ==> t == seconds
  {
    if seconds < MIN_UNIX then MIN_UNIX else if seconds > MAX_UNIX then MAX_UNIX else seconds
  }

  // The sum saturates at 64 bits first, which changes nothing after clamping.
  function PlusSeconds(t: Timestamp, seconds: int): Timestamp {
    FromUnix(t + seconds)
  }

  // ----- fixed-width fields -----

  function Pow10(width: nat): (p: nat)
    ensures p > 0
  {
    if width == 0 then 1 else 10 * Pow10(width - 1)
  }

  // `n` in decimal, padded with zeros to `width`.
  function Padded(n: nat, width: nat): (s: string)
    requires n < Pow10(width)
    ensures |s| == width && Utf8.Ascii(s)
  {
    if width == 0 then "" else Padded(n / 10, width - 1) + [Decimal.Digit(n % 10)]
  }

  function Number(digits: seq<byte>): Option<nat> {
    if Decimal.AllDigits(digits) then Some(Decimal.Value(digits)) else None
  }

  /** The digit loop of the reader. */
  method NumberLoop(digits: seq<byte>) returns (r: Option<nat>)
    ensures r == Number(digits)
  {
    var value: nat := 0;
    assert digits[..0] == [];
    for i := 0 to |digits|
      invariant Decimal.AllDigits(digits[..i]) && value == Decimal.Value(digits[..i])
    {
      if !Decimal.IsDigit(digits[i]) {
        return None;
      }
      assert digits[..i + 1][..i] == digits[..i];
      value := value * 10 + (digits[i] - 48);
    }
    assert digits[..|digits|] == digits;
    r := Some(value);
  }

  lemma {:induction false} PaddedReads(n: nat, width: nat)
    requires n < Pow10(width)
    ensures |Utf8.Encode(Padded(n, width))| == width
    ensures Number(Utf8.Encode(Padded(n, width))) == Some(n)
    decreases width
  {
    var s := Padded(n, width);
    Utf8.EncodeAscii(s);
    if width > 0 {
      PaddedReads(n / 10, width - 1);
      Utf8.EncodeAscii(Padded(n / 10, width - 1));
      var b := Utf8.Encode(s);
      assert b[..|b| - 1] == Utf8.Encode(Padded(n / 10, width - 1));
    }
  }

  lemma {:induction false} ReadIsPadded(digits: seq<byte>)
    requires Number(digits).Some?
    ensures Number(digits).value < Pow10(|digits|)
    ensures Utf8.Encode(Padded(Number(digits).value, |digits|)) == digits
  {
    var n := Number(digits).value;
    if digits == [] {
    } else {
      var front := digits[..|digits| - 1];
      ReadIsPadded(front);
      assert n / 10 == Decimal.Value(front) && n % 10 == digits[|digits| - 1] - 48;
      var s := Padded(n, |digits|);
      Utf8.EncodeAscii(s);
      Utf8.EncodeAscii(Padded(n / 10, |front|));
      assert s == Padded(n / 10, |front|) + [Decimal.Digit(n % 10)];
      assert digits == front + [digits[|digits| - 1]];
    }
  }

  // ----- writing and reading -----

  datatype Fields = Fields(year: int, month: int, day: int, hour: int, minute: int, second: int)

  predicate ValidFields(f: Fields) {
    && 0 <= f.year < 10000 && ValidDate(f.year, f.month, f.day)
    && 0 <= f.hour < 24 && 0 <= f.minute < 60 && 0 <= f.second < 60
  }

  function FieldsOf(t: Timestamp): Fields {
    var date := CivilFromDays(t / 86400);
    var secondOfDay := t % 86400;
    Fields(date.0, date.1, date.2, secondOfDay / 3600, secondOfDay % 3600 / 60, secondOfDay % 60)
  }

  function SecondsOf(f: Fields): int {
    DaysFromCivil(f.year, f.month, f.day) * 86400 + f.hour * 3600 + f.minute * 60 + f.second
  }

  function Write(f: Fields): (s: string)
    requires ValidFields(f)
    ensures |s| == 20 && Utf8.Ascii(s)
  {
    Widths();
    Padded(f.year, 4) + "-" + Padded(f.month, 2) + "-" + Padded(f.day, 2) + "T"
    + Padded(f.hour, 2) + ":" + Padded(f.minute, 2) + ":" + Padded(f.second, 2) + "Z"
  }

  lemma Widths()
    ensures Pow10(4) == 10000 && Pow10(2) == 100
  {
    assert Pow10(3) == 1000;
  }

  function ToRfc3339(t: Timestamp): (s: string)
    ensures |s| == 20 && Utf8.Ascii(s)
  {
    FieldsOfValid(t);
    Write(FieldsOf(t))
  }

  function ReadFields(b: seq<byte>): Option<Fields> {
    if |b| != 20 then None
    else if b[4] != 45 || b[7] != 45 || b[10] != 84 then None
    else if b[13] != 58 || b[16] != 58 || b[19] != 90 then None
    else
      var year, month, day := Number(b[0..4]), Number(b[5..7]), Number(b[8..10]);
      var hour, minute, second := Number(b[11..13]), Number(b[14..16]), Number(b[17..19]);
      if year.None? || month.None? || day.None? || hour.None? || minute.None? || second.None? then None
      else Some(Fields(year.value, month.value, day.value, hour.value, minute.value, second.value))
  }

  function ParseRfc3339(text: string): (r: Option<Timestamp>) {
    match ReadFields(Utf8.Encode(text))
    case None => None
    case Some(f) =>
      if !(1 <= f.month <= 12) || f.day < 1 || f.day > DaysInMonth(f.year, f.month) then None
      else if f.hour > 23 || f.minute > 59 || f.second > 59 then None
      else
        ReadFieldsBound(Utf8.Encode(text));
        SecondsInRange(f);
        Some(SecondsOf(f))
  }

  lemma ReadFieldsBound(b: seq<byte>)
    requires ReadFields(b).Some?
    ensures var f := ReadFields(b).value;
            0 <= f.year < 10000 && 0 <= f.hour && 0 <= f.minute && 0 <= f.second
  {
    Widths();
    ReadIsPadded(b[0..4]);
  }

  // ----- the range -----

  lemma RangeEnds()
    ensures MIN_UNIX == DaysFromCivil(0, 1, 1) * 86400
    ensures MAX_UNIX + 1 == DaysFromCivil(10000, 1, 1) * 86400
  {
  }

  lemma SecondsInRange(f: Fields)
    requires ValidFields(f)
    ensures MIN_UNIX <= SecondsOf(f) <= MAX_UNIX
  {
    RangeEnds();
    DaysInDateOrder((f.year, f.month, f.day), (0, 1, 1));
    DaysInDateOrder((f.year, f.month, f.day), (10000, 1, 1));
  }

  lemma FieldsOfValid(t: Timestamp)
    ensures ValidFields(FieldsOf(t)) && SecondsOf(FieldsOf(t)) == t
  {
    DaysToCivilAndBack(t / 86400);
    RangeEnds();
    var date := CivilFromDays(t / 86400);
    DaysInDateOrder(date, (0, 1, 1));
    DaysInDateOrder(date, (10000, 1, 1));
    hide CivilFromDays, DaysFromCivil, ValidDate;
    TimeOfDay(t % 86400);
  }

  lemma TimeOfDay(s: int)
    requires 0 <= s < 86400
    ensures s == s / 3600 * 3600 + s % 3600 / 60 * 60 + s % 60
    ensures 0 <= s / 3600 < 24 && 0 <= s % 3600 / 60 < 60
  {
    assert s % 3600 % 60 == s % 60;
  }

  lemma FieldsOfSeconds(f: Fields, t: Timestamp)
    requires ValidFields(f) && SecondsOf(f) == t
    ensures FieldsOf(t) == f
  {
    CivilToDaysAndBack(f.year, f.month, f.day);
    hide CivilFromDays, DaysFromCivil, ValidDate;
    ClockSplits(DaysFromCivil(f.year, f.month, f.day), f.hour, f.minute, f.second);
  }

  lemma ClockSplits(days: int, hour: int, minute: int, second: int)
    requires 0 <= hour < 24 && 0 <= minute < 60 && 0 <= second < 60
    ensures var t := days * 86400 + hour * 3600 + minute * 60 + second;
            && t / 86400 == days && t % 86400 / 3600 == hour
            && t % 86400 % 3600 / 60 == minute && t % 86400 % 60 == second
  {
    var s := hour * 3600 + minute * 60 + second;
    assert 0 <= s < 86400;
    assert (days * 86400 + s) / 86400 == days && (days * 86400 + s) % 86400 == s;
    assert s / 3600 == hour && s % 3600 == minute * 60 + second;
    assert s % 60 == second;
  }

  // ----- the two directions -----

  lemma WrittenFieldsRead(f: Fields)
    requires ValidFields(f)
    ensures ReadFields(Utf8.Encode(Write(f))) == Some(f)
  {
    hide *;
    var s := Write(f);
    FieldText(f);
    Utf8.EncodeAscii(s);
    var b := Utf8.Encode(s);
    FieldReads(s, 0, 4, f.year);
    FieldReads(s, 5, 2, f.month);
    FieldReads(s, 8, 2, f.day);
    FieldReads(s, 11, 2, f.hour);
    FieldReads(s, 14, 2, f.minute);
    FieldReads(s, 17, 2, f.second);
    ReadFieldsIs(b, f);
  }

  lemma ReadFieldsIs(b: seq<byte>, f: Fields)
    requires |b| == 20 && b[4] == 45 && b[7] == 45 && b[10] == 84 && b[13] == 58 && b[16] == 58 && b[19] == 90
    requires f.year >= 0 && f.month >= 0 && f.day >= 0 && f.hour >= 0 && f.minute >= 0 && f.second >= 0
    requires Number(b[0..4]) == Some(f.year) && Number(b[5..7]) == Some(f.month) && Number(b[8..10]) == Some(f.day)
    requires Number(b[11..13]) == Some(f.hour) && Number(b[14..16]) == Some(f.minute)
    requires Number(b[17..19]) == Some(f.second)
    ensures ReadFields(b) == Some(f)
  {
    hide Number;
  }

  lemma FieldText(f: Fields)
    requires ValidFields(f)
    ensures 0 <= f.year < Pow10(4) && 0 <= f.month < Pow10(2) && 0 <= f.day < Pow10(2)
    ensures 0 <= f.hour < Pow10(2) && 0 <= f.minute < Pow10(2) && 0 <= f.second < Pow10(2)
    ensures var s := Write(f);
            && s[0..4] == Padded(f.year, 4) && s[4] == '-' && s[5..7] == Padded(f.month, 2) && s[7] == '-'
            && s[8..10] == Padded(f.day, 2) && s[10] == 'T' && s[11..13] == Padded(f.hour, 2) && s[13] == ':'
            && s[14..16] == Padded(f.minute, 2) && s[16] == ':' && s[17..19] == Padded(f.second, 2) && s[19] == 'Z'
  {
    Widths();
    hide Padded;
  }

  lemma FieldReads(s: string, start: nat, width: nat, n: nat)
    requires Utf8.Ascii(s) && start + width <= |s| && n < Pow10(width)
    requires s[start..start + width] == Padded(n, width)
    ensures start + width <= |Utf8.Encode(s)|
    ensures Number(Utf8.Encode(s)[start..start + width]) == Some(n)
  {
    Utf8.EncodeAscii(s);
    Utf8.EncodeAscii(Padded(n, width));
    PaddedReads(n, width);
    assert Utf8.Encode(s)[start..start + width] == Utf8.Encode(Padded(n, width));
  }

  /** Every timestamp reads back from its text. */
  lemma WriteThenRead(t: Timestamp)
    ensures ParseRfc3339(ToRfc3339(t)) == Some(t)
  {
    FieldsOfValid(t);
    hide FieldsOf, SecondsOf, ReadFields, Write;
    WrittenFieldsRead(FieldsOf(t));
  }

  lemma ReadFieldsWrite(b: seq<byte>)
    requires ReadFields(b).Some? && ValidFields(ReadFields(b).value)
    ensures Utf8.Encode(Write(ReadFields(b).value)) == b
  {
    hide *;
    var f := ReadFields(b).value;
    var s := Write(f);
    ReadFieldsShape(b);
    FieldText(f);
    Utf8.EncodeAscii(s);
    FieldSpells(b, s, 0, 4, f.year);
    FieldSpells(b, s, 5, 2, f.month);
    FieldSpells(b, s, 8, 2, f.day);
    FieldSpells(b, s, 11, 2, f.hour);
    FieldSpells(b, s, 14, 2, f.minute);
    FieldSpells(b, s, 17, 2, f.second);
    SameText(Utf8.Encode(s), b);
  }

  lemma ReadFieldsShape(b: seq<byte>)
    requires ReadFields(b).Some?
    ensures |b| == 20
    ensures b[4] == 45 && b[7] == 45 && b[10] == 84 && b[13] == 58 && b[16] == 58 && b[19] == 90
    ensures var f := ReadFields(b).value;
            && 0 <= f.year && 0 <= f.month && 0 <= f.day && 0 <= f.hour && 0 <= f.minute && 0 <= f.second
            && Number(b[0..4]) == Some(f.year as nat) && Number(b[5..7]) == Some(f.month as nat)
            && Number(b[8..10]) == Some(f.day as nat) && Number(b[11..13]) == Some(f.hour as nat)
            && Number(b[14..16]) == Some(f.minute as nat) && Number(b[17..19]) == Some(f.second as nat)
  {
    hide Number;
  }

  lemma SameText(e: seq<byte>, b: seq<byte>)
    requires |e| == |b| == 20
    requires e[0..4] == b[0..4] && e[5..7] == b[5..7] && e[8..10] == b[8..10]
    requires e[11..13] == b[11..13] && e[14..16] == b[14..16] && e[17..19] == b[17..19]
    requires e[4] == b[4] && e[7] == b[7] && e[10] == b[10] && e[13] == b[13] && e[16] == b[16] && e[19] == b[19]
    ensures e == b
  {
    forall i | 0 <= i < 20
      ensures e[i] == b[i]
    {
      if i < 4 { assert e[0..4][i] == b[0..4][i]; }
      else if 5 <= i < 7 { assert e[5..7][i - 5] == b[5..7][i - 5]; }
      else if 8 <= i < 10 { assert e[8..10][i - 8] == b[8..10][i - 8]; }
      else if 11 <= i < 13 { assert e[11..13][i - 11] == b[11..13][i - 11]; }
      else if 14 <= i < 16 { assert e[14..16][i - 14] == b[14..16][i - 14]; }
      else if 17 <= i < 19 { assert e[17..19][i - 17] == b[17..19][i - 17]; }
    }
  }

  lemma FieldSpells(b: seq<byte>, s: string, start: nat, width: nat, n: nat)
    requires Utf8.Ascii(s) && start + width <= |s| == |b| && n < Pow10(width)
    requires s[start..start + width] == Padded(n, width)
    requires Number(b[start..start + width]) == Some(n)
    ensures |Utf8.Encode(s)| == |s|
    ensures Utf8.Encode(s)[start..start + width] == b[start..start + width]
  {
    ReadIsPadded(b[start..start + width]);
    Utf8.EncodeAscii(s);
    Utf8.EncodeAscii(Padded(n, width));
  }

  /** Every text that is read is the text of what was read: there is one spelling per instant. */
  lemma ReadThenWrite(text: string)
    requires ParseRfc3339(text).Some?
    ensures ToRfc3339(ParseRfc3339(text).value) == text
  {
    var b := Utf8.Encode(text);
    var f := ReadFields(b).value;
    ReadFieldsBound(b);
    FieldsOfSeconds(f, ParseRfc3339(text).value);
    FieldsOfValid(ParseRfc3339(text).value);
    hide *;
    ReadFieldsWrite(b);
    ToRfc3339Is(ParseRfc3339(text).value);
    Utf8.EncodeInjective(ToRfc3339(ParseRfc3339(text).value), text);
  }

  lemma ToRfc3339Is(t: Timestamp)
    ensures ValidFields(FieldsOf(t)) && ToRfc3339(t) == Write(FieldsOf(t))
  {
    FieldsOfValid(t);
  }

  // ----- text order is time order -----

  // Lexicographic order, as strings are compared.
  predicate TextBefore(s: string, t: string) {
    t != "" && (s == "" || s[0] < t[0] || (s[0] == t[0] && TextBefore(s[1..], t[1..])))
  }

  lemma {:induction false} TextBeforeConcat(s: string, t: string, u: string, v: string)
    requires |s| == |t|
    ensures TextBefore(s + u, t + v) <==> TextBefore(s, t) || (s == t && TextBefore(u, v))
  {
    if s == "" {
      assert s + u == u && t + v == v;
    } else {
      assert (s + u)[1..] == s[1..] + u && (t + v)[1..] == t[1..] + v;
      TextBeforeConcat(s[1..], t[1..], u, v);
      assert s == [s[0]] + s[1..] && t == [t[0]] + t[1..];
    }
  }

  lemma {:induction false} NotBeforeItself(s: string)
    ensures !TextBefore(s, s)
  {
    if s != "" {
      NotBeforeItself(s[1..]);
    }
  }

  lemma {:induction false} PaddedInOrder(m: nat, n: nat, width: nat)
    requires m < Pow10(width) && n < Pow10(width)
    ensures TextBefore(Padded(m, width), Padded(n, width)) <==> m < n
    ensures Padded(m, width) == Padded(n, width) <==> m == n
    decreases width
  {
    if width > 0 {
      PaddedInOrder(m / 10, n / 10, width - 1);
      var s, t := Padded(m / 10, width - 1), Padded(n / 10, width - 1);
      var d, e := [Decimal.Digit(m % 10)], [Decimal.Digit(n % 10)];
      TextBeforeConcat(s, t, d, e);
      assert TextBefore(d, e) <==> d[0] < e[0];
      assert (s + d)[|s|] == d[0] && (t + e)[|t|] == e[0];
      assert (s + d)[..|s|] == s && (t + e)[..|t|] == t;
    }
  }

  predicate FieldsBefore(f: Fields, g: Fields) {
    f.year < g.year || (f.year == g.year
    && (f.month < g.month || (f.month == g.month
    && (f.day < g.day || (f.day == g.day
    && (f.hour < g.hour || (f.hour == g.hour
    && (f.minute < g.minute || (f.minute == g.minute && f.second < g.second)))))))))
  }

  // One field and its separator, followed by the rest of the text.
  lemma FieldInOrder(m: nat, n: nat, width: nat, separator: string, u: string, v: string)
    requires m < Pow10(width) && n < Pow10(width)
    ensures TextBefore(Padded(m, width) + (separator + u), Padded(n, width) + (separator + v))
       <==> m < n || (m == n && TextBefore(u, v))
  {
    PaddedInOrder(m, n, width);
    TextBeforeConcat(Padded(m, width), Padded(n, width), separator + u, separator + v);
    TextBeforeConcat(separator, separator, u, v);
    NotBeforeItself(separator);
  }

  lemma WriteInOrder(f: Fields, g: Fields)
    requires ValidFields(f) && ValidFields(g)
    ensures TextBefore(Write(f), Write(g)) <==> FieldsBefore(f, g)
  {
    hide ValidDate, Padded, TextBefore, Write;
    FieldText(f);
    FieldText(g);
    FieldInOrder(f.second, g.second, 2, "Z", "", "");
    NotBeforeItself("");
    var s6, t6 := Padded(f.second, 2) + ("Z" + ""), Padded(g.second, 2) + ("Z" + "");
    FieldInOrder(f.minute, g.minute, 2, ":", s6, t6);
    var s5, t5 := Padded(f.minute, 2) + (":" + s6), Padded(g.minute, 2) + (":" + t6);
    FieldInOrder(f.hour, g.hour, 2, ":", s5, t5);
    var s4, t4 := Padded(f.hour, 2) + (":" + s5), Padded(g.hour, 2) + (":" + t5);
    FieldInOrder(f.day, g.day, 2, "T", s4, t4);
    var s3, t3 := Padded(f.day, 2) + ("T" + s4), Padded(g.day, 2) + ("T" + t4);
    FieldInOrder(f.month, g.month, 2, "-", s3, t3);
    var s2, t2 := Padded(f.month, 2) + ("-" + s3), Padded(g.month, 2) + ("-" + t3);
    FieldInOrder(f.year, g.year, 4, "-", s2, t2);
    WriteNests(f);
    WriteNests(g);
  }

  lemma WriteNests(f: Fields)
    requires ValidFields(f)
    requires f.year < Pow10(4) && 0 <= f.month < Pow10(2) && 0 <= f.day < Pow10(2)
    requires f.hour < Pow10(2) && f.minute < Pow10(2) && f.second < Pow10(2)
    ensures Write(f) == Padded(f.year, 4) + ("-" + (Padded(f.month, 2) + ("-" + (Padded(f.day, 2) + ("T"
                      + (Padded(f.hour, 2) + (":" + (Padded(f.minute, 2) + (":" + (Padded(f.second, 2)
                      + ("Z" + "")))))))))))
  {
    hide ValidDate, Padded;
  }

  lemma SecondsInOrder(f: Fields, g: Fields)
    requires ValidFields(f) && ValidFields(g)
    ensures FieldsBefore(f, g) <==> SecondsOf(f) < SecondsOf(g)
  {
    var a, b := (f.year, f.month, f.day), (g.year, g.month, g.day);
    DaysInDateOrder(a, b);
    DaysInDateOrder(b, a);
    hide DaysFromCivil, ValidDate;
  }

  /** Comparing two timestamps as text is comparing them as instants. */
  lemma TextOrderIsTimeOrder(s: Timestamp, t: Timestamp)
    ensures TextBefore(ToRfc3339(s), ToRfc3339(t)) <==> s < t
  {
    FieldsOfValid(s);
    FieldsOfValid(t);
    ToRfc3339Is(s);
    ToRfc3339Is(t);
    hide *;
    WriteInOrder(FieldsOf(s), FieldsOf(t));
    SecondsInOrder(FieldsOf(s), FieldsOf(t));
  }
}
