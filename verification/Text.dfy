/** The text operations the readers share: trimming, splitting, lines. */
module Text {
  import opened Wrappers

  // The Unicode White_Space property.
  predicate IsWhitespace(c: char) {
    var n := c as int;
    || 0x09 <= n <= 0x0D || n == 0x20 || n == 0x85 || n == 0xA0 || n == 0x1680
    || 0x2000 <= n <= 0x200A || n == 0x2028 || n == 0x2029 || n == 0x202F || n == 0x205F || n == 0x3000
  }

  function TrimStart(s: string): string {
    if s != "" && IsWhitespace(s[0]) then TrimStart(s[1..]) else s
  }

  function TrimEnd(s: string): string {
    if s != "" && IsWhitespace(s[|s| - 1]) then TrimEnd(s[..|s| - 1]) else s
  }

  function Trim(s: string): string {
    TrimEnd(TrimStart(s))
  }

  lemma TrimKeeps(s: string)
    requires s != "" ==> !IsWhitespace(s[0]) && !IsWhitespace(s[|s| - 1])
    ensures Trim(s) == s
  {
  }

  lemma {:induction false} TrimStartClean(s: string)
    ensures TrimStart(s) != "" ==> !IsWhitespace(TrimStart(s)[0])
  {
    if s != "" {
      TrimStartClean(s[1..]);
    }
  }

  lemma {:induction false} TrimEndClean(s: string)
    ensures TrimEnd(s) <= s
    ensures TrimEnd(s) != "" ==> !IsWhitespace(TrimEnd(s)[|TrimEnd(s)| - 1])
  {
    if s != "" {
      TrimEndClean(s[..|s| - 1]);
    }
  }

  /** A trimmed text has no whitespace at either end. */
  lemma TrimIsClean(s: string)
    ensures Trim(s) != "" ==> !IsWhitespace(Trim(s)[0]) && !IsWhitespace(Trim(s)[|Trim(s)| - 1])
    ensures Trim(Trim(s)) == Trim(s)
  {
    TrimStartClean(s);
    TrimEndClean(TrimStart(s));
    TrimKeeps(Trim(s));
  }

  // The pieces between occurrences of `separator`; always at least one.
  function SplitAt(s: string, separator: char): (parts: seq<string>)
    ensures |parts| >= 1
  {
    if s == "" then [""]
    else
      var rest := SplitAt(s[1..], separator);
      if s[0] == separator then [""] + rest else [[s[0]] + rest[0]] + rest[1..]
  }

  lemma {:induction false} SplitPiece(piece: string, separator: char, rest: string)
    requires separator !in piece
    ensures SplitAt(piece + [separator] + rest, separator) == [piece] + SplitAt(rest, separator)
  {
    var s := piece + [separator] + rest;
    if piece == "" {
      assert s[1..] == rest;
    } else {
      assert s[1..] == piece[1..] + [separator] + rest;
      SplitPiece(piece[1..], separator, rest);
      assert piece == [piece[0]] + piece[1..];
    }
  }

  lemma {:induction false} SplitWhole(piece: string, separator: char)
    requires separator !in piece
    ensures SplitAt(piece, separator) == [piece]
  {
    if piece != "" {
      SplitWhole(piece[1..], separator);
      assert piece == [piece[0]] + piece[1..];
    }
  }

  // Before and after the first `separator`.
  function SplitOnce(s: string, separator: char): Option<(string, string)> {
    if s == "" then None
    else if s[0] == separator then Some(("", s[1..]))
    else
      match SplitOnce(s[1..], separator)
      case None => None
      case Some(pair) => Some(([s[0]] + pair.0, pair.1))
  }

  lemma {:induction false} SplitOnceAt(before: string, separator: char, after: string)
    requires separator !in before
    ensures SplitOnce(before + [separator] + after, separator) == Some((before, after))
  {
    var s := before + [separator] + after;
    if before == "" {
      assert s[1..] == after;
    } else {
      assert s[1..] == before[1..] + [separator] + after;
      SplitOnceAt(before[1..], separator, after);
      assert before == [before[0]] + before[1..];
    }
  }

  lemma {:induction false} SplitOnceIs(s: string, separator: char)
    ensures match SplitOnce(s, separator)
            case Some((before, after)) => s == before + [separator] + after && separator !in before
            case None => separator !in s
  {
    if s != "" && s[0] != separator {
      SplitOnceIs(s[1..], separator);
    }
  }

  function StripPrefix(s: string, prefix: string): string {
    if prefix <= s then s[|prefix|..] else s
  }

  // Lines end at a newline, which takes one preceding carriage return with
  // it; a final newline does not open another line.
  function Lines(s: string): seq<string>
    decreases |s|
  {
    if s == "" then []
    else
      match SplitOnce(s, '\n')
      case None => [s]
      case Some(pair) =>
        SplitOnceShrinks(s, '\n');
        [StripReturn(pair.0)] + Lines(pair.1)
  }

  lemma {:induction false} SplitOnceShrinks(s: string, separator: char)
    ensures SplitOnce(s, separator).Some? ==> |SplitOnce(s, separator).value.1| < |s|
  {
    if s != "" && s[0] != separator {
      SplitOnceShrinks(s[1..], separator);
    }
  }

  function StripReturn(line: string): string {
    if line != "" && line[|line| - 1] == '\r' then line[..|line| - 1] else line
  }

  lemma LinesFirst(line: string, rest: string)
    requires '\n' !in line
    ensures Lines(line + ['\n'] + rest) == [StripReturn(line)] + Lines(rest)
  {
    SplitOnceAt(line, '\n', rest);
    assert line + ['\n'] + rest != "";
  }

  function ToLower(c: char): char {
    if 'A' <= c <= 'Z' then (c as int + 32) as char else c
  }

  function AsciiLowercase(s: string): (r: string)
    ensures |r| == |s|
  {
    seq(|s|, i requires 0 <= i < |s| => ToLower(s[i]))
  }

  lemma LowercaseKeepsTrim(s: string)
    requires Trim(s) == s
    ensures Trim(AsciiLowercase(s)) == AsciiLowercase(s)
    ensures AsciiLowercase(AsciiLowercase(s)) == AsciiLowercase(s)
  {
    TrimIsClean(s);
    TrimKeeps(AsciiLowercase(s));
  }

  // ----- texts that are the same but for case and the whitespace around them -----

  predicate AllWhitespace(s: string) {
    forall i :: 0 <= i < |s| ==> IsWhitespace(s[i])
  }

  lemma {:induction false} PaddingStart(p: string, s: string)
    requires AllWhitespace(p)
    ensures TrimStart(p + s) == TrimStart(s)
  {
    if p == "" {
      assert p + s == s;
    } else {
      assert (p + s)[1..] == p[1..] + s;
      PaddingStart(p[1..], s);
    }
  }

  lemma {:induction false} PaddingEnd(s: string, p: string)
    requires AllWhitespace(p)
    ensures TrimEnd(s + p) == TrimEnd(s)
  {
    if p == "" {
      assert s + p == s;
    } else {
      assert (s + p)[..|s + p| - 1] == s + p[..|p| - 1];
      PaddingEnd(s, p[..|p| - 1]);
    }
  }

  lemma {:induction false} StartThenEnd(s: string, p: string)
    requires AllWhitespace(p)
    ensures TrimEnd(TrimStart(s + p)) == TrimEnd(TrimStart(s))
  {
    if s == "" {
      PaddingStart(p, "");
      assert s + p == p + "";
    } else if IsWhitespace(s[0]) {
      assert (s + p)[1..] == s[1..] + p;
      StartThenEnd(s[1..], p);
    } else {
      PaddingEnd(s, p);
    }
  }

  // Whitespace around a text is trimmed with it.
  lemma TrimPadded(p: string, s: string, q: string)
    requires AllWhitespace(p) && AllWhitespace(q)
    ensures Trim(p + s + q) == Trim(s)
  {
    hide TrimStart, TrimEnd, AllWhitespace;
    PaddingStart(p, s + q);
    assert p + s + q == p + (s + q);
    StartThenEnd(s, q);
  }

  predicate SameLetter(c: char, d: char) {
    || c == d
    || ('A' <= c <= 'Z' && d as int == c as int + 32)
    || ('A' <= d <= 'Z' && c as int == d as int + 32)
  }

  predicate SameButForCase(a: string, b: string) {
    |a| == |b| && forall i :: 0 <= i < |a| ==> SameLetter(a[i], b[i])
  }

  lemma {:induction false} TrimsAlike(a: string, b: string)
    requires SameButForCase(a, b)
    ensures SameButForCase(TrimStart(a), TrimStart(b)) && SameButForCase(TrimEnd(a), TrimEnd(b))
  {
    if a != "" {
      assert SameLetter(a[0], b[0]) && SameLetter(a[|a| - 1], b[|a| - 1]);
      TrimsAlike(a[1..], b[1..]);
      TrimsAlike(a[..|a| - 1], b[..|a| - 1]);
    }
  }

  /** Such texts have one trimmed lower-case form. */
  lemma NormalForm(p: string, a: string, q: string, b: string)
    requires AllWhitespace(p) && AllWhitespace(q) && SameButForCase(a, b)
    ensures AsciiLowercase(Trim(p + a + q)) == AsciiLowercase(Trim(b))
  {
    hide TrimStart, TrimEnd, AllWhitespace;
    TrimPadded(p, a, q);
    TrimsAlike(a, b);
    TrimsAlike(TrimStart(a), TrimStart(b));
    assert AsciiLowercase(Trim(a)) == AsciiLowercase(Trim(b));
  }
}
