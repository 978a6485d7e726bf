/** JSON values and how they are written. */
module JsonValue {
  import opened Wrappers
  import opened Bytes
  import Decimal
  import Hex

  type int64 = i: int | -0x8000_0000_0000_0000 <= i < 0x8000_0000_0000_0000

  // A number that is not written as a plain 64-bit integer is kept as
  // the text it was read from; its floating-point value is not modelled.
  datatype Value =
    | Null
    | Bool(b: bool)
    | Int(i: int64)
    | Float(lexeme: seq<byte>)
    | String(s: string)
    | Array(items: seq<Value>)
    | Object(fields: seq<(string, Value)>)

  // What the name is first bound to; nothing unless the value is an object.
  function Get(value: Value, name: string): Option<Value> {
    if value.Object? then Find(value.fields, name) else None
  }

  function Find(fields: seq<(string, Value)>, name: string): Option<Value> {
    if fields == [] then None
    else if fields[0].0 == name then Some(fields[0].1)
    else Find(fields[1..], name)
  }

  // ----- what can be written and read back -----

  predicate FloatFree(v: Value)
    decreases v
  {
    match v
    case Float(_) => false
    case Array(items) => forall k :: 0 <= k < |items| ==> FloatFree(items[k])
    case Object(fields) => forall k :: 0 <= k < |fields| ==> FloatFree(fields[k].1)
    case _ => true
  }

  predicate DistinctNames(fields: seq<(string, Value)>) {
    forall j, k :: 0 <= j < k < |fields| ==> fields[j].0 != fields[k].0
  }

  // No object, at any depth, names a field twice.
  predicate DistinctKeys(v: Value)
    decreases v
  {
    match v
    case Array(items) => forall k :: 0 <= k < |items| ==> DistinctKeys(items[k])
    case Object(fields) =>
      DistinctNames(fields) && forall k :: 0 <= k < |fields| ==> DistinctKeys(fields[k].1)
    case _ => true
  }

  // Nesting is at most `limit` arrays and objects deep.
  predicate Nested(v: Value, limit: nat)
    decreases v
  {
    match v
    case Array(items) => limit > 0 && forall k :: 0 <= k < |items| ==> Nested(items[k], limit - 1)
    case Object(fields) => limit > 0 && forall k :: 0 <= k < |fields| ==> Nested(fields[k].1, limit - 1)
    case _ => true
  }

  // ----- writing -----

  function WriteChar(c: char): string {
    if c == '"' then "\\\""
    else if c == '\\' then "\\\\"
    else if c == '\n' then "\\n"
    else if c == '\r' then "\\r"
    else if c == '\t' then "\\t"
    else if c == '\U{8}' then "\\b"
    else if c == '\U{c}' then "\\f"
    else if c < ' ' then "\\u00" + [Hex.Digit(c as int / 16), Hex.Digit(c as int % 16)]
    else [c]
  }

  function WriteChars(s: string): string {
    if s == "" then "" else WriteChar(s[0]) + WriteChars(s[1..])
  }

  function WriteString(s: string): string {
    "\"" + WriteChars(s) + "\""
  }

  function Write(v: Value): string
    requires FloatFree(v)
    decreases v, 1
  {
    match v
    case Null => "null"
    case Bool(b) => if b then "true" else "false"
    case Int(i) => Decimal.RenderInt(i)
    case String(s) => WriteString(s)
    case Array(items) => "[" + WriteItems(items, 0) + "]"
    case Object(fields) => "{" + WriteFields(fields, 0) + "}"
  }

  // A comma goes before every item but the first.
  function Comma(position: nat): string {
    if position > 0 then "," else ""
  }

  // The items from `position` on.
  function WriteItems(items: seq<Value>, position: nat): string
    requires position <= |items|
    requires forall k :: 0 <= k < |items| ==> FloatFree(items[k])
    decreases items, 0, |items| - position
  {
    if position == |items| then ""
    else Comma(position) + Write(items[position]) + WriteItems(items, position + 1)
  }

  function WriteField(field: (string, Value)): string
    requires FloatFree(field.1)
    decreases field, 2
  {
    WriteString(field.0) + ":" + Write(field.1)
  }

  function WriteFields(fields: seq<(string, Value)>, position: nat): string
    requires position <= |fields|
    requires forall k :: 0 <= k < |fields| ==> FloatFree(fields[k].1)
    decreases fields, 0, |fields| - position
  {
    if position == |fields| then ""
    else Comma(position) + WriteField(fields[position]) + WriteFields(fields, position + 1)
  }

  /** The character loop of the string writer. */
  method WriteStringLoop(s: string) returns (out: string)
    ensures out == WriteString(s)
  {
    out := "\"";
    for i := 0 to |s|
      invariant out + WriteChars(s[i..]) == "\"" + WriteChars(s)
    {
      assert s[i..][1..] == s[i + 1..];
      out := out + WriteChar(s[i]);
    }
    assert s[|s|..] == "";
    out := out + "\"";
  }

  lemma Regroup(out: string, comma: string, item: string, rest: string)
    ensures out + (comma + item + rest) == (out + comma + item) + rest
  {
    assert out + (comma + item + rest) == (out + (comma + item)) + rest;
    assert out + (comma + item) == out + comma + item;
  }

  /** The formatter. */
  method Display(v: Value) returns (out: string)
    requires FloatFree(v)
    ensures out == Write(v)
    decreases v, 1
  {
    match v
    case Null => out := "null";
    case Bool(b) => out := if b then "true" else "false";
    case Int(i) => out := Decimal.RenderInt(i);
    case String(s) => out := WriteStringLoop(s);
    case Array(items) => out := DisplayItems(items);
    case Object(fields) => out := DisplayFields(fields);
  }

  method DisplayItems(items: seq<Value>) returns (out: string)
    requires forall k :: 0 <= k < |items| ==> FloatFree(items[k])
    ensures out == "[" + WriteItems(items, 0) + "]"
    decreases items, 0
  {
    hide Write, FloatFree;
    out := "[";
    for position := 0 to |items|
      invariant out + WriteItems(items, position) == "[" + WriteItems(items, 0)
    {
      Regroup(out, Comma(position), Write(items[position]), WriteItems(items, position + 1));
      if position > 0 {
        out := out + ",";
      } else {
        assert out == out + Comma(0);
      }
      var item := Display(items[position]);
      out := out + item;
    }
    out := out + "]";
  }

  method DisplayField(field: (string, Value)) returns (out: string)
    requires FloatFree(field.1)
    ensures out == WriteField(field)
    decreases field, 2
  {
    hide Write, WriteString;
    var name := WriteStringLoop(field.0);
    var value := Display(field.1);
    out := name + ":" + value;
  }

  method DisplayFields(fields: seq<(string, Value)>) returns (out: string)
    requires forall k :: 0 <= k < |fields| ==> FloatFree(fields[k].1)
    ensures out == "{" + WriteFields(fields, 0) + "}"
    decreases fields, 0
  {
    hide WriteField, FloatFree;
    out := "{";
    for position := 0 to |fields|
      invariant out + WriteFields(fields, position) == "{" + WriteFields(fields, 0)
    {
      Regroup(out, Comma(position), WriteField(fields[position]), WriteFields(fields, position + 1));
      if position > 0 {
        out := out + ",";
      } else {
        assert out == out + Comma(0);
      }
      var field := DisplayField(fields[position]);
      out := out + field;
    }
    out := out + "}";
  }
}
