/** What a `.env` file of any style sets: the file as its author writes it, and what the reader makes of it. */
module DotenvFiles {
  import opened Wrappers
  import opened Text
  import opened Dotenv

  // ----- files as they are written -----

  // One character between double quotes, as itself or behind a backslash.
  datatype Mark = Raw(c: char) | Slashed(c: char)

  datatype Value = Bare(text: string) | Single(text: string) | Double(marks: seq<Mark>)

  // A line is a remark, something with no equals sign in it, or a setting.
  datatype Line =
    | Remark(text: string)
    | Wordless(text: string)
    | Setting(exported: bool, gap: string, key: string, before: string, after: string, value: Value)

  // A line with what surrounds it; `dos` when it ends in a carriage return as well.
  datatype Row = Row(indent: string, line: Line, trail: string, dos: bool)

  function MarksText(marks: seq<Mark>): string {
    if marks == [] then ""
    else (match marks[0] case Raw(c) => [c] case Slashed(c) => ['\\', c]) + MarksText(marks[1..])
  }

  function ValueText(value: Value): string {
    match value
    case Bare(text) => text
    case Single(text) => "'" + text + "'"
    case Double(marks) => "\"" + MarksText(marks) + "\""
  }

  function LineText(line: Line): string {
    match line
    case Remark(text) => "#" + text
    case Wordless(text) => text
    case Setting(exported, gap, key, before, after, value) =>
      (if exported then "export " + gap else "") + (key + before + "=" + after + ValueText(value))
  }

  function RowText(row: Row): string {
    row.indent + LineText(row.line) + row.trail + if row.dos then "\r" else ""
  }

  // The last line need not end in a newline.
  function FileText(rows: seq<Row>, last: Row): string {
    if rows == [] then RowText(last) else RowText(rows[0]) + "\n" + FileText(rows[1..], last)
  }

  // ----- what they mean -----

  function MarksMean(marks: seq<Mark>): string {
    if marks == [] then ""
    else
      [match marks[0]
       case Raw(c) => c
       case Slashed('n') => '\n'
       case Slashed('r') => '\r'
       case Slashed('t') => '\t'
       case Slashed(c) => c] + MarksMean(marks[1..])
  }

  function ValueMeans(value: Value): string {
    match value
    case Bare(text) => text
    case Single(text) => text
    case Double(marks) => MarksMean(marks)
  }

  function LineSets(line: Line): Option<Pair> {
    if line.Setting? && line.key != "" then Some((line.key, ValueMeans(line.value))) else None
  }

  function FileSets(rows: seq<Row>): seq<Pair> {
    if rows == [] then []
    else
      var rest := FileSets(rows[1..]);
      match LineSets(rows[0].line) case None => rest case Some(pair) => [pair] + rest
  }

  // ----- what may be written where -----

  predicate IsPadding(s: string) {
    forall i :: 0 <= i < |s| ==> IsWhitespace(s[i]) && s[i] != '\n'
  }

  // Nothing to trim off, and all on one line.
  predicate IsWord(s: string) {
    && '\n' !in s
    && (s != "" ==> !IsWhitespace(s[0]) && !IsWhitespace(s[|s| - 1]))
  }

  predicate ValidValue(value: Value) {
    match value
    case Bare(text) => IsWord(text) && !QuotedBy(text, '"') && !QuotedBy(text, '\'')
    case Single(text) => '\n' !in text
    case Double(marks) => forall i :: 0 <= i < |marks| ==> marks[i].c != '\n' && marks[i] != Raw('\\')
  }

  predicate ValidLine(line: Line) {
    match line
    case Remark(text) => '\n' !in text
    case Wordless(text) => '\n' !in text && '=' !in text
    case Setting(exported, gap, key, before, after, value) =>
      && IsPadding(gap) && IsPadding(before) && IsPadding(after) && ValidValue(value)
      && IsWord(key) && '=' !in key && (key == "" ==> before == "")
      && (ValueText(value) == "" ==> after == "")
      && (!exported ==> (key != "" ==> key[0] != '#') && !("export " <= key + before))
  }

  predicate ValidRow(row: Row) {
    IsPadding(row.indent) && IsPadding(row.trail) && ValidLine(row.line)
  }

  // ----- trimming -----

  lemma TrimWord(p: string, s: string, q: string)
    requires IsPadding(p) && IsPadding(q) && IsWord(s)
    ensures Trim(p + s + q) == s
  {
    hide Trim;
    TrimPadded(p, s, q);
    TrimKeeps(s);
  }

  // ----- values -----

  lemma {:induction false} MarksRead(marks: seq<Mark>)
    requires forall i :: 0 <= i < |marks| ==> marks[i] != Raw('\\')
    ensures Unescape(MarksText(marks)) == MarksMean(marks)
  {
    if marks != [] {
      MarksRead(marks[1..]);
      var text, rest := MarksText(marks), MarksText(marks[1..]);
      match marks[0]
      case Raw(c) => assert text[0] == c && text[1..] == rest;
      case Slashed(c) => assert text[0] == '\\' && text[1] == c && text[2..] == rest;
    }
  }

  lemma {:induction false} MarksOnOneLine(marks: seq<Mark>)
    requires forall i :: 0 <= i < |marks| ==> marks[i].c != '\n'
    ensures '\n' !in MarksText(marks)
  {
    if marks != [] {
      MarksOnOneLine(marks[1..]);
    }
  }

  lemma ValueReads(value: Value)
    requires ValidValue(value)
    ensures IsWord(ValueText(value)) && Unquoted(ValueText(value)) == ValueMeans(value)
  {
    hide MarksText, MarksMean, Unescape;
    var text := ValueText(value);
    if value.Double? {
      MarksRead(value.marks);
      MarksOnOneLine(value.marks);
      assert text[1..|text| - 1] == MarksText(value.marks);
    } else if value.Single? {
      assert text[1..|text| - 1] == value.text;
    }
  }

  // ----- lines -----

  // A setting without its keyword.
  function Assignment(line: Line): string
    requires line.Setting?
  {
    line.key + line.before + "=" + line.after + ValueText(line.value)
  }

  lemma AssignmentSplits(line: Line)
    requires ValidLine(line) && line.Setting?
    ensures SplitOnce(Assignment(line), '=') == Some((line.key + line.before, line.after + ValueText(line.value)))
    ensures Trim(line.key + line.before) == line.key
    ensures Unquoted(Trim(line.after + ValueText(line.value))) == ValueMeans(line.value)
    ensures IsWord(Assignment(line)) && Assignment(line) != ""
  {
    hide Trim, Unquoted, SplitOnce, ValueText, ValueMeans, ValidValue;
    var name, rest, text := line.key + line.before, line.after + ValueText(line.value), ValueText(line.value);
    ValueReads(line.value);
    assert '=' !in line.before by { assert !IsWhitespace('='); }
    assert Assignment(line) == name + ['='] + rest;
    SplitOnceAt(name, '=', rest);
    assert "" + line.key + line.before == line.key + line.before;
    TrimWord("", line.key, line.before);
    assert line.after + text + "" == line.after + text;
    TrimWord(line.after, text, "");
    var a := Assignment(line);
    assert a[0] == if line.key != "" then line.key[0] else '=';
    assert a[|a| - 1] == if text != "" then text[|text| - 1] else '=';
  }

  lemma ExportedReads(gap: string, assignment: string)
    requires IsPadding(gap) && IsWord(assignment) && assignment != ""
    ensures var text := "export " + gap + assignment;
            && IsWord(text) && text[0] == 'e'
            && Trim(StripPrefix(text, "export ")) == assignment
  {
    hide Trim, IsWhitespace;
    var text := "export " + gap + assignment;
    assert text[7..] == gap + assignment;
    assert gap + assignment + "" == gap + assignment;
    TrimWord(gap, assignment, "");
    assert text[|text| - 1] == assignment[|assignment| - 1];
    assert !IsWhitespace('e') by { LetterIsNoSpace(); }
  }

  lemma LetterIsNoSpace()
    ensures !IsWhitespace('e') && !IsWhitespace('=')
  {
  }

  // What stands before the equals sign decides whether a line opens with the keyword.
  lemma NotKeyword(name: string, rest: string)
    requires !("export " <= name) && rest != "" && rest[0] == '='
    ensures !("export " <= name + rest)
  {
    assert |name| < 7 ==> (name + rest)[|name|] == '=';
    assert |name| >= 7 ==> (name + rest)[..7] == name[..7];
  }

  lemma SettingReads(line: Line)
    requires ValidLine(line) && line.Setting?
    ensures IsWord(LineText(line)) && LineText(line) != "" && LineText(line)[0] != '#'
    ensures Trim(StripPrefix(LineText(line), "export ")) == Assignment(line)
  {
    hide Trim, ValueText, ValidValue, IsWord, IsPadding, StripPrefix;
    var a, text := Assignment(line), LineText(line);
    AssignmentSplits(line);
    if line.exported {
      assert text == "export " + line.gap + a;
      ExportedReads(line.gap, a);
    } else {
      assert text == a;
      var name, rest := line.key + line.before, "=" + line.after + ValueText(line.value);
      assert a == name + rest;
      assert a[0] == if line.key != "" then line.key[0] else '=';
      NotKeyword(name, rest);
      assert StripPrefix(a, "export ") == a by { NothingToStrip(a, "export "); }
      WordTrims(a);
    }
  }

  lemma NothingToStrip(s: string, prefix: string)
    requires !(prefix <= s)
    ensures StripPrefix(s, prefix) == s
  {
  }

  lemma WordTrims(s: string)
    requires IsWord(s)
    ensures Trim(s) == s
  {
    TrimKeeps(s);
  }

  lemma {:induction false} TrimHasNo(s: string, c: char)
    requires c !in s
    ensures c !in TrimStart(s) && c !in TrimEnd(s)
  {
    if s != "" {
      TrimHasNo(s[1..], c);
      TrimHasNo(s[..|s| - 1], c);
    }
  }

  lemma TrimmedHasNo(s: string, c: char)
    requires c !in s
    ensures c !in Trim(s)
  {
    TrimHasNo(s, c);
    TrimHasNo(TrimStart(s), c);
  }

  lemma WordlessReads(raw: string, text: string)
    requires '=' !in text && Trim(raw) == Trim(text)
    ensures ReadLine(raw) == None
  {
    hide Trim, SplitOnce;
    TrimmedHasNo(text, '=');
    var line := StripPrefix(Trim(raw), "export ");
    TrimmedHasNo(line, '=');
    SplitOnceIs(Trim(line), '=');
  }

  lemma {:induction false} RemarkTrims(text: string)
    ensures TrimEnd("#" + text) != "" && TrimEnd("#" + text)[0] == '#'
  {
    if text != "" && IsWhitespace(text[|text| - 1]) {
      assert ("#" + text)[..|text|] == "#" + text[..|text| - 1];
      RemarkTrims(text[..|text| - 1]);
    }
  }

  lemma LineReads(line: Line, raw: string)
    requires ValidLine(line) && Trim(raw) == Trim(LineText(line))
    ensures ReadLine(raw) == LineSets(line)
  {
    hide Trim, SplitOnce, ValueText, Unquoted, ValidLine, LineText;
    match line
    case Setting(_, _, _, _, _, _) =>
      SettingReads(line);
      AssignmentSplits(line);
      TrimKeeps(LineText(line));
    case Remark(text) =>
      RemarkReads(line);
    case Wordless(text) =>
      assert '=' !in text && Trim(raw) == Trim(text) by { WordlessIs(line); }
      WordlessReads(raw, text);
  }

  lemma RemarkReads(line: Line)
    requires line.Remark?
    ensures Trim(LineText(line)) != "" && Trim(LineText(line))[0] == '#'
  {
    RemarkTrims(line.text);
  }

  lemma WordlessIs(line: Line)
    requires ValidLine(line) && line.Wordless?
    ensures '=' !in line.text && LineText(line) == line.text
  {
  }

  lemma ReturnIsTrimmed(s: string)
    ensures Trim(StripReturn(s)) == Trim(s)
  {
    hide Trim;
    if StripReturn(s) != s {
      assert s == "" + StripReturn(s) + "\r" && StripReturn(s) == "" + StripReturn(s) + "";
      TrimPadded("", StripReturn(s), "\r");
    }
  }

  // A row is on one line, and reads as what it sets, whatever surrounds that.
  lemma RowReads(row: Row)
    requires ValidRow(row)
    ensures '\n' !in RowText(row)
    ensures ReadLine(RowText(row)) == ReadLine(StripReturn(RowText(row))) == LineSets(row.line)
  {
    hide Trim, LineText, StripReturn, ReadLine;
    var text, end := RowText(row), row.trail + if row.dos then "\r" else "";
    assert text == row.indent + LineText(row.line) + end;
    TrimPadded(row.indent, LineText(row.line), end);
    LineOnOneLine(row.line);
    ReturnIsTrimmed(text);
    LineReads(row.line, text);
    LineReads(row.line, StripReturn(text));
  }

  lemma LineOnOneLine(line: Line)
    requires ValidLine(line)
    ensures '\n' !in LineText(line)
  {
    hide ValueText;
    if line.Setting? {
      SettingReads(line);
    }
  }

  /**
   Every file reads as what its lines set, in order: remarks, blank lines and
   lines with no equals sign set nothing; the export keyword, the whitespace
   around names and values and the quotes are not part of what is set.
   */
  lemma {:induction false} FileReads(rows: seq<Row>, last: Row)
    requires ValidRow(last) && forall i :: 0 <= i < |rows| ==> ValidRow(rows[i])
    ensures Read(FileText(rows, last)) == FileSets(rows + [last])
    decreases |rows|
  {
    hide RowText, ReadLine, LineSets, StripReturn, ValidRow, SplitOnce;
    if rows == [] {
      RowReads(last);
      LastLine(RowText(last));
      assert ([] + [last])[1..] == [];
    } else {
      var line, rest := RowText(rows[0]), FileText(rows[1..], last);
      RowReads(rows[0]);
      LinesFirst(line, rest);
      assert line + "\n" + rest == line + ['\n'] + rest;
      FileReads(rows[1..], last);
      assert ([StripReturn(line)] + Lines(rest))[1..] == Lines(rest);
      assert (rows + [last])[1..] == rows[1..] + [last];
    }
  }

  lemma LastLine(text: string)
    requires '\n' !in text
    ensures Read(text) == match ReadLine(text) case None => [] case Some(pair) => [pair]
  {
    hide ReadLine, SplitOnce;
    SplitOnceIs(text, '\n');
    NothingReads();
    if text != "" {
      assert Lines(text) == [text] && [text][1..] == [];
      assert ReadLines([]) == [];
    }
  }

  lemma NothingReads()
    ensures ReadLine("") == None
  {
  }
}
