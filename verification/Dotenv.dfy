/** Writing secrets as a `.env` file and reading one back. */
module Dotenv {
  import opened Wrappers
  import opened Text
  import Validate

  type Pair = (string, string)

  // ----- quoting -----

  predicate IsSpecial(c: char) {
    IsWhitespace(c) || c == '"' || c == '\'' || c == '\\' || c == '#' || c == '$' || c == '='
  }

  predicate NeedsQuotes(value: string) {
    value == "" || exists i :: 0 <= i < |value| && IsSpecial(value[i])
  }

  function EscapeChar(c: char): (e: string)
    ensures e != "" && '\n' !in e && '\r' !in e
  {
    if c == '"' then "\\\""
    else if c == '\\' then "\\\\"
    else if c == '\n' then "\\n"
    else if c == '\r' then "\\r"
    else [c]
  }

  function Escape(value: string): (e: string)
    ensures '\n' !in e && '\r' !in e
  {
    if value == "" then "" else EscapeChar(value[0]) + Escape(value[1..])
  }

  function Quote(value: string): string {
    if NeedsQuotes(value) then "\"" + Escape(value) + "\"" else value
  }

  /** The writer's loop over the characters. */
  method DotenvQuote(value: string) returns (out: string)
    ensures out == Quote(value)
  {
    var needsQuotes := value == "";
    for i := 0 to |value|
      invariant needsQuotes <==> value == "" || exists j :: 0 <= j < i && IsSpecial(value[j])
    {
      if IsSpecial(value[i]) {
        needsQuotes := true;
      }
    }
    if !needsQuotes {
      return value;
    }
    out := "\"";
    for i := 0 to |value|
      invariant out + Escape(value[i..]) == "\"" + Escape(value)
    {
      assert value[i..][1..] == value[i + 1..];
      assert out + (EscapeChar(value[i]) + Escape(value[i + 1..]))
          == (out + EscapeChar(value[i])) + Escape(value[i + 1..]);
      out := out + EscapeChar(value[i]);
    }
    assert out + Escape(value[|value|..]) == out;
    out := out + "\"";
  }

  // ----- unquoting -----

  function Unescape(inner: string): string
    decreases |inner|
  {
    if inner == "" then ""
    else if inner[0] != '\\' then [inner[0]] + Unescape(inner[1..])
    else if |inner| == 1 then "\\"
    else [Plain(inner[1])] + Unescape(inner[2..])
  }

  // What a character means behind a backslash.
  function Plain(c: char): char {
    if c == 'n' then '\n' else if c == 'r' then '\r' else if c == 't' then '\t' else c
  }

  lemma UnescapeAt(inner: string, i: nat)
    requires i < |inner|
    ensures Unescape(inner[i..])
         == if inner[i] != '\\' then [inner[i]] + Unescape(inner[i + 1..])
            else if i + 1 == |inner| then "\\"
            else [Plain(inner[i + 1])] + Unescape(inner[i + 2..])
  {
    assert inner[i..][1..] == inner[i + 1..];
    if i + 1 < |inner| {
      assert inner[i..][2..] == inner[i + 2..];
    }
  }

  lemma Regroup(out: string, piece: string, rest: string)
    ensures out + (piece + rest) == (out + piece) + rest
    ensures out + "" == out
  {
  }

  predicate QuotedBy(value: string, mark: char) {
    |value| >= 2 && value[0] == mark && value[|value| - 1] == mark
  }

  // Double quotes escape; single quotes are literal.
  function Unquoted(value: string): string {
    if QuotedBy(value, '"') then Unescape(value[1..|value| - 1])
    else if QuotedBy(value, '\'') then value[1..|value| - 1]
    else value
  }

  /** The reader's loop over the characters between the quotes. */
  method Unquote(value: string) returns (out: string)
    ensures out == Unquoted(value)
  {
    if !QuotedBy(value, '"') && !QuotedBy(value, '\'') {
      return value;
    }
    var inner := value[1..|value| - 1];
    if value[0] == '\'' {
      return inner;
    }
    hide Unescape, Plain;
    out := "";
    var i := 0;
    while i < |inner|
      invariant i <= |inner| && out + Unescape(inner[i..]) == Unescape(inner)
    {
      UnescapeAt(inner, i);
      var c := inner[i];
      if c != '\\' {
        Regroup(out, [c], Unescape(inner[i + 1..]));
        out := out + [c];
        i := i + 1;
      } else if i + 1 == |inner| {
        Regroup(out, "\\", "");
        out := out + "\\";
        i := i + 1;
        assert inner[i..] == [];
      } else {
        var d := Plain(inner[i + 1]);
        Regroup(out, [d], Unescape(inner[i + 2..]));
        out := out + [d];
        i := i + 2;
      }
    }
    NothingEscaped();
    assert inner[i..] == [];
    Regroup(out, "", "");
  }

  lemma NothingEscaped()
    ensures Unescape("") == ""
  {
  }

  // ----- lines -----

  // What one line sets, if anything.
  function ReadLine(raw: string): Option<Pair> {
    var trimmed := Trim(raw);
    if trimmed == "" || trimmed[0] == '#' then None
    else
      match SplitOnce(Trim(StripPrefix(trimmed, "export ")), '=')
      case None => None
      case Some((key, value)) => if Trim(key) == "" then None else Some((Trim(key), Unquoted(Trim(value))))
  }

  function ReadLines(lines: seq<string>): seq<Pair>
    decreases |lines|
  {
    if lines == [] then []
    else
      match ReadLine(lines[0])
      case None => ReadLines(lines[1..])
      case Some(pair) => [pair] + ReadLines(lines[1..])
  }

  function Read(text: string): seq<Pair> {
    ReadLines(Lines(text))
  }

  method ParseDotenv(text: string) returns (out: seq<Pair>)
    ensures out == Read(text)
  {
    hide Trim, SplitOnce, Lines, Unquoted;
    var lines := Lines(text);
    out := [];
    var i := 0;
    while i < |lines|
      invariant i <= |lines| && out + ReadLines(lines[i..]) == ReadLines(lines)
    {
      assert lines[i..][0] == lines[i] && lines[i..][1..] == lines[i + 1..];
      var raw := lines[i];
      i := i + 1;
      var line := Trim(raw);
      if line == "" || line[0] == '#' {
        continue;
      }
      line := Trim(StripPrefix(line, "export "));
      var split := SplitOnce(line, '=');
      if split.None? {
        continue;
      }
      var key := Trim(split.value.0);
      if key == "" {
        continue;
      }
      var value := Unquote(Trim(split.value.1));
      assert out + ([(key, value)] + ReadLines(lines[i..])) == (out + [(key, value)]) + ReadLines(lines[i..]);
      out := out + [(key, value)];
    }
    assert out + ReadLines(lines[i..]) == out;
  }

  function ExportLine(pair: Pair): string {
    pair.0 + "=" + Quote(pair.1)
  }

  function Export(pairs: seq<Pair>): string
    decreases |pairs|
  {
    if pairs == [] then "" else ExportLine(pairs[0]) + "\n" + Export(pairs[1..])
  }

  /** The export command's loop. */
  method ExportAll(pairs: seq<Pair>) returns (text: string)
    ensures text == Export(pairs)
  {
    hide Quote;
    text := "";
    for i := 0 to |pairs|
      invariant text + Export(pairs[i..]) == Export(pairs)
    {
      assert pairs[i..][0] == pairs[i] && pairs[i..][1..] == pairs[i + 1..];
      var quoted := DotenvQuote(pairs[i].1);
      var line := pairs[i].0 + "=" + quoted + "\n";
      assert line == ExportLine(pairs[i]) + "\n";
      assert text + (line + Export(pairs[i + 1..])) == (text + line) + Export(pairs[i + 1..]);
      text := text + line;
    }
    assert text + Export(pairs[|pairs|..]) == text;
  }

  // ----- the round trip -----

  lemma {:induction false} UnescapeEscape(value: string)
    ensures Unescape(Escape(value)) == value
  {
    if value != "" {
      UnescapeEscape(value[1..]);
      var e, rest := EscapeChar(value[0]), Escape(value[1..]);
      if |e| == 2 {
        assert (e + rest)[2..] == rest;
      } else {
        assert (e + rest)[1..] == rest;
      }
    }
  }

  /** Quoting and unquoting give back any text at all. */
  lemma UnquoteQuote(value: string)
    ensures Unquoted(Quote(value)) == value
  {
    hide Escape, Unescape, IsWhitespace;
    if NeedsQuotes(value) {
      var q := "\"" + Escape(value) + "\"";
      assert q[1..|q| - 1] == Escape(value);
      UnescapeEscape(value);
    } else {
      assert forall i :: 0 <= i < |value| ==> !IsSpecial(value[i]);
    }
  }

  // A quoted value survives trimming and stays on its line.
  lemma QuoteIsClean(value: string)
    ensures var q := Quote(value);
            && q != "" && !IsWhitespace(q[0]) && !IsWhitespace(q[|q| - 1]) && '\n' !in q && '\r' !in q
  {
    if !NeedsQuotes(value) {
      assert forall i :: 0 <= i < |value| ==> !IsSpecial(value[i]);
      assert IsWhitespace('\n') && IsWhitespace('\r');
    }
  }

  lemma KeyIsClean(key: string)
    requires Validate.IsSecretKey(key)
    ensures key != "" && Trim(key) == key && key[0] != '#' && '=' !in key && ' ' !in key && '\n' !in key
    ensures !IsWhitespace(key[0])
  {
    assert forall i :: 0 <= i < |key| ==> Validate.IsKeyChar(key[i]) && !IsWhitespace(key[i]);
    TrimKeeps(key);
  }

  lemma LineReads(pair: Pair)
    requires Validate.IsSecretKey(pair.0)
    ensures ReadLine(ExportLine(pair)) == Some(pair)
    ensures '\n' !in ExportLine(pair) && StripReturn(ExportLine(pair)) == ExportLine(pair)
  {
    hide Trim, Quote, Unquoted, SplitOnce, IsWhitespace, Validate.IsSecretKey;
    var (key, value) := pair;
    var line, q := ExportLine(pair), Quote(value);
    KeyIsClean(key);
    QuoteIsClean(value);
    UnquoteQuote(value);
    assert line[0] == key[0] && line[|line| - 1] == q[|q| - 1];
    TrimKeeps(line);
    TrimKeeps(q);
    NotExported(key, q);
    assert line == key + ['='] + q;
    SplitOnceAt(key, '=', q);
  }

  // A key has no space, so a line is never taken to open with the export keyword.
  lemma NotExported(key: string, q: string)
    requires ' ' !in key
    ensures StripPrefix(key + "=" + q, "export ") == key + "=" + q
  {
    var line := key + "=" + q;
    assert |key| > 6 ==> line[6] == key[6] && key[6] in key;
    assert |key| <= 6 ==> line[|key|] == '=';
  }

  /** Every list of valid keys with any values at all reads back from its export, in order. */
  lemma {:induction false} ExportThenRead(pairs: seq<Pair>)
    requires forall i :: 0 <= i < |pairs| ==> Validate.IsSecretKey(pairs[i].0)
    ensures Read(Export(pairs)) == pairs
    decreases |pairs|
  {
    hide ReadLine, ExportLine, Validate.IsSecretKey, SplitOnce;
    if pairs != [] {
      var line, rest := ExportLine(pairs[0]), Export(pairs[1..]);
      LineReads(pairs[0]);
      LinesFirst(line, rest);
      assert line + "\n" + rest == line + ['\n'] + rest;
      ExportThenRead(pairs[1..]);
      assert ([StripReturn(line)] + Lines(rest))[1..] == Lines(rest);
      assert pairs == [pairs[0]] + pairs[1..];
    }
  }
}
