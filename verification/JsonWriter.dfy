/** The indenting printer: methods that append to the stream, against functions that say what they append. */
module JsonWriter {
  import opened JsonValue
  import opened Sequences

  function Escape(c: char): string {
    match c
    case '"' => "\\\""
    case '\\' => "\\\\"
    case '\n' => "\\n"
    case '\r' => "\\r"
    case '\t' => "\\t"
    case _ => [c]
  }

  function EscapeAll(s: string): string {
    if s == "" then "" else Escape(s[0]) + EscapeAll(s[1..])
  }

  function Quote(s: string): string {
    "\"" + EscapeAll(s) + "\""
  }

  function Padding(indent: nat): (p: string)
    ensures |p| == 2 * indent && forall i :: 0 <= i < |p| ==> p[i] == ' '
  {
    seq(2 * indent, _ => ' ')
  }

  function Write(f: NumberFormat, v: Value, indent: nat): string
    decreases v, 0
  {
    match v
    case Null => "null"
    case Bool(b) => if b then "true" else "false"
    case Number(x) => f.show(x)
    case String(s) => Quote(s)
    case Array(elements) => if elements == [] then "[]" else "[\n" + WriteElements(f, elements, 0, indent)
    case Object(members) => if members == [] then "{}" else "{\n" + WriteMembers(f, members, 0, indent)
  }

  function Separator(last: bool): string {
    (if last then "" else ",") + "\n"
  }

  function ElementLine(f: NumberFormat, elements: seq<Value>, i: nat, indent: nat): string
    requires i < |elements|
    decreases elements, |elements| - i, 0
  {
    Padding(indent + 1) + Write(f, elements[i], indent + 1) + Separator(i + 1 == |elements|)
  }

  /** The elements from i on, one a line, and the closing bracket. */
  function WriteElements(f: NumberFormat, elements: seq<Value>, i: nat, indent: nat): string
    requires i <= |elements|
    decreases elements, |elements| - i, 1
  {
    if i == |elements| then Padding(indent) + "]"
    else ElementLine(f, elements, i, indent) + WriteElements(f, elements, i + 1, indent)
  }

  function MemberLine(f: NumberFormat, members: seq<Member>, i: nat, indent: nat): string
    requires i < |members|
    decreases members, |members| - i, 0
  {
    Padding(indent + 1) + Quote(members[i].key) + ": " + Write(f, members[i].value, indent + 1)
    + Separator(i + 1 == |members|)
  }

  function WriteMembers(f: NumberFormat, members: seq<Member>, i: nat, indent: nat): string
    requires i <= |members|
    decreases members, |members| - i, 1
  {
    if i == |members| then Padding(indent) + "}"
    else MemberLine(f, members, i, indent) + WriteMembers(f, members, i + 1, indent)
  }

  function Serialize(f: NumberFormat, v: Value): string {
    Write(f, v, 0) + "\n"
  }

  class Writer {
    const format: NumberFormat
    var stream: string

    constructor (format: NumberFormat)
      ensures this.format == format && stream == ""
    {
      this.format := format;
      stream := "";
    }

    method WriteEscapedString(value: string)
      modifies this
      ensures stream == old(stream) + Quote(value)
    {
      stream := stream + "\"";
      for i := 0 to |value|
        invariant stream + EscapeAll(value[i..]) == old(stream) + "\"" + EscapeAll(value)
      {
        hide Escape;
        assert value[i..][1..] == value[i + 1..];
        Regroup(stream, Escape(value[i]), EscapeAll(value[i + 1..]));
        stream := stream + Escape(value[i]);
      }
      assert stream + "" == stream;
      Regroup("\"", EscapeAll(value), "\"");
      stream := stream + "\"";
    }

    method WriteValue(value: Value, indent: nat)
      modifies this
      ensures stream == old(stream) + Write(format, value, indent)
      decreases value, 0
    {
      match value {
        case Null => stream := stream + "null";
        case String(s) => WriteEscapedString(s);
        case Array(elements) =>
          if elements == [] {
            stream := stream + "[]";
          } else {
            WriteArray(elements, indent);
          }
        case Object(members) =>
          if members == [] {
            stream := stream + "{}";
          } else {
            WriteObject(members, indent);
          }
        case Bool(b) => stream := stream + if b then "true" else "false";
        case Number(x) => stream := stream + format.show(x);
      }
    }

    method WriteArray(elements: seq<Value>, indent: nat)
      modifies this
      ensures stream == old(stream) + ("[\n" + WriteElements(format, elements, 0, indent))
      decreases elements, |elements|, 1
    {
      hide ElementLine;
      stream := stream + "[\n";
      for i := 0 to |elements|
        invariant stream + WriteElements(format, elements, i, indent)
                  == old(stream) + ("[\n" + WriteElements(format, elements, 0, indent))
      {
        Regroup(stream, ElementLine(format, elements, i, indent), WriteElements(format, elements, i + 1, indent));
        WriteElementLine(elements, i, indent);
      }
      Regroup(stream, Padding(indent), "]");
      stream := stream + Padding(indent) + "]";
    }

    method WriteElementLine(elements: seq<Value>, i: nat, indent: nat)
      requires i < |elements|
      modifies this
      ensures stream == old(stream) + ElementLine(format, elements, i, indent)
      decreases elements, |elements|, 0
    {
      hide Write;
      stream := stream + Padding(indent + 1);
      WriteValue(elements[i], indent + 1);
      if i + 1 != |elements| {
        stream := stream + ",";
      }
      stream := stream + "\n";
    }

    method WriteObject(members: seq<Member>, indent: nat)
      modifies this
      ensures stream == old(stream) + ("{\n" + WriteMembers(format, members, 0, indent))
      decreases members, |members|, 1
    {
      hide MemberLine;
      stream := stream + "{\n";
      for i := 0 to |members|
        invariant stream + WriteMembers(format, members, i, indent)
                  == old(stream) + ("{\n" + WriteMembers(format, members, 0, indent))
      {
        Regroup(stream, MemberLine(format, members, i, indent), WriteMembers(format, members, i + 1, indent));
        WriteMemberLine(members, i, indent);
      }
      Regroup(stream, Padding(indent), "}");
      stream := stream + Padding(indent) + "}";
    }

    method WriteMemberLine(members: seq<Member>, i: nat, indent: nat)
      requires i < |members|
      modifies this
      ensures stream == old(stream) + MemberLine(format, members, i, indent)
      decreases members, |members|, 0
    {
      hide Write, Quote, Padding;
      stream := stream + Padding(indent + 1);
      WriteEscapedString(members[i].key);
      stream := stream + ": ";
      WriteValue(members[i].value, indent + 1);
      if i + 1 != |members| {
        stream := stream + ",";
      }
      stream := stream + "\n";
    }
  }

  method SerializeValue(f: NumberFormat, value: Value) returns (text: string)
    ensures text == Serialize(f, value)
  {
    var writer := new Writer(f);
    writer.WriteValue(value, 0);
    text := writer.stream + "\n";
  }

  /** No line feed, carriage return or tab stands in a printed string as it is. */
  predicate OneLine(s: string) {
    forall i :: 0 <= i < |s| ==> s[i] !in "\n\r\t"
  }

  lemma {:induction false} EscapedOnOneLine(s: string)
    ensures OneLine(EscapeAll(s))
  {
    if s != "" {
      EscapedOnOneLine(s[1..]);
    }
  }

  /** Between its quotes, a printed string has no line feed, carriage return or tab. */
  lemma QuotedOnOneLine(s: string)
    ensures OneLine(Quote(s))
  {
    EscapedOnOneLine(s);
  }

  // An example of the layout: two spaces a level, and one element or member a line.

  lemma PaddingText()
    ensures Padding(0) == "" && Padding(1) == "  " && Padding(2) == "    "
  {
  }

  /** [true, null], inside a document. */
  lemma PrintedArray(f: NumberFormat)
    ensures Write(f, Array([Bool(true), Null]), 1) == "[\n    true,\n    null\n  ]"
  {
    hide Padding;
    PaddingText();
    var elements := [Bool(true), Null];
    assert ElementLine(f, elements, 0, 1) == "    true,\n";
    assert ElementLine(f, elements, 1, 1) == "    null\n";
    assert WriteElements(f, elements, 2, 1) == "  ]";
    assert WriteElements(f, elements, 1, 1) == "    null\n  ]";
    assert WriteElements(f, elements, 0, 1) == "    true,\n    null\n  ]";
  }

  lemma PrintedKey()
    ensures Quote("a") == "\"a\""
  {
    assert "a"[1..] == "" && EscapeAll("") == "";
  }

  /** {"a": [true, null]} as a document. */
  lemma PrintedObject(f: NumberFormat)
    ensures Serialize(f, Object([Member("a", Array([Bool(true), Null]))]))
            == "{\n" + ("  \"a\": " + "[\n    true,\n    null\n  ]" + "\n" + "}") + "\n"
  {
    PrintedArray(f);
    hide Padding, Quote, WriteElements;
    PaddingText();
    PrintedKey();
    var members := [Member("a", Array([Bool(true), Null]))];
    assert MemberLine(f, members, 0, 0) == "  \"a\": " + "[\n    true,\n    null\n  ]" + "\n";
    assert WriteMembers(f, members, 1, 0) == "}";
  }
}
