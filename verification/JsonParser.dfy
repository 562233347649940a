/** The position-advancing recursive-descent parser. Each method is proved against the function of the same
    grammar rule, which says what the rule reads at an offset of the text. */
module JsonParser {
  import opened Options
  import opened JsonValue

  /** The message without its " at offset n" suffix, and n. */
  datatype Error = Error(message: string, offset: nat)

  datatype Parsed<+T> = Ok(value: T, next: nat) | Err(error: Error)

  function Fails<T>(message: string, offset: nat): Parsed<T> {
    Err(Error(message, offset))
  }

  /** std::isspace in the C locale. */
  predicate IsSpace(c: char) {
    c == ' ' || 9 <= c as int <= 13
  }

  /** Whether text.compare(pos, |word|, word) is 0. */
  predicate At(text: string, pos: nat, word: string) {
    pos + |word| <= |text| && text[pos..pos + |word|] == word
  }

  function SkipSpace(text: string, pos: nat): (next: nat)
    requires pos <= |text|
    ensures pos <= next <= |text|
    ensures next < |text| ==> !IsSpace(text[next])
    ensures forall k :: pos <= k < next ==> IsSpace(text[k])
    decreases |text| - pos
  {
    if pos < |text| && IsSpace(text[pos]) then SkipSpace(text, pos + 1) else pos
  }

  function HexDigit(c: char): Option<nat> {
    if '0' <= c <= '9' then Some(c as int - '0' as int)
    else if 'a' <= c <= 'f' then Some(c as int - 'a' as int + 10)
    else if 'A' <= c <= 'F' then Some(c as int - 'A' as int + 10)
    else None
  }

  /** The code point spelled by the first n hexadecimal digits at pos. */
  function CodePoint(text: string, pos: nat, n: nat): (r: Option<nat>)
    requires pos + n <= |text| && n <= 4
    ensures r.Some? ==> r.value < [1, 0x10, 0x100, 0x1000, 0x1_0000][n]
  {
    if n == 0 then Some(0)
    else
      match CodePoint(text, pos, n - 1)
      case None => None
      case Some(high) =>
        match HexDigit(text[pos + n - 1])
        case None => None
        case Some(digit) => Some(high * 16 + digit)
  }

  /** The bytes of a code point of the basic multilingual plane. */
  function Utf8(c: nat): string
    requires c <= 0xFFFF
  {
    if c <= 0x7F then [c as char]
    else if c <= 0x7FF then [(0xC0 + c / 0x40) as char, (0x80 + c % 0x40) as char]
    else [(0xE0 + c / 0x1000) as char, (0x80 + c / 0x40 % 0x40) as char, (0x80 + c % 0x40) as char]
  }

  /** What a one-letter escape stands for. */
  function Unescape(c: char): Option<char> {
    match c
    case '"' => Some('"')
    case '\\' => Some('\\')
    case '/' => Some('/')
    case 'b' => Some(8 as char)
    case 'f' => Some(12 as char)
    case 'n' => Some('\n')
    case 'r' => Some('\r')
    case 't' => Some('\t')
    case _ => None
  }

  /** The rest of a string literal from pos, appended to what was read of it before. */
  function CharsAt(text: string, pos: nat, read: string): (r: Parsed<string>)
    requires pos <= |text|
    ensures r.Ok? ==> pos < r.next <= |text|
    decreases |text| - pos
  {
    if pos == |text| then Fails("unterminated string", pos)
    else if text[pos] == '"' then Ok(read, pos + 1)
    else if text[pos] != '\\' then CharsAt(text, pos + 1, read + [text[pos]])
    else if pos + 1 == |text| then Fails("unterminated escape sequence", pos + 1)
    else if text[pos + 1] == 'u' then
      if pos + 6 > |text| then Fails("invalid unicode escape", pos + 2)
      else
        match CodePoint(text, pos + 2, 4)
        case None => Fails("invalid unicode escape", pos + 2)
        case Some(c) => CharsAt(text, pos + 6, read + Utf8(c))
    else
      match Unescape(text[pos + 1])
      case None => Fails("invalid escape sequence", pos + 2)
      case Some(c) => CharsAt(text, pos + 2, read + [c])
  }

  function StringAt(text: string, pos: nat): (r: Parsed<string>)
    requires pos <= |text|
    ensures r.Ok? ==> pos < r.next <= |text|
  {
    if pos == |text| || text[pos] != '"' then Fails("expected '\"'", pos) else CharsAt(text, pos + 1, "")
  }

  predicate IsNumberChar(c: char) {
    '0' <= c <= '9' || c == '.' || c == 'e' || c == 'E' || c == '+' || c == '-'
  }

  function SkipNumber(text: string, pos: nat): (next: nat)
    requires pos <= |text|
    ensures pos <= next <= |text|
    ensures next < |text| ==> !IsNumberChar(text[next])
    ensures forall k :: pos <= k < next ==> IsNumberChar(text[k])
    decreases |text| - pos
  {
    if pos < |text| && IsNumberChar(text[pos]) then SkipNumber(text, pos + 1) else pos
  }

  /** from_chars sees the whole token and may stop inside it; the parser goes on after the token. */
  function NumberAt(f: NumberFormat, text: string, pos: nat): (r: Parsed<Value>)
    requires pos <= |text|
    ensures r.Ok? ==> pos < r.next <= |text|
  {
    var next := SkipNumber(text, pos);
    if next == pos then Fails("invalid number", pos)
    else
      match f.read(text[pos..next])
      case None => Fails("invalid number", next)
      case Some(x) => Ok(Number(x), next)
  }

  function BoolAt(text: string, pos: nat): (r: Parsed<Value>)
    ensures r.Ok? ==> pos < r.next <= |text|
  {
    if At(text, pos, "true") then Ok(Bool(true), pos + 4)
    else if At(text, pos, "false") then Ok(Bool(false), pos + 5)
    else Fails("invalid literal", pos)
  }

  function NullAt(text: string, pos: nat): (r: Parsed<Value>)
    ensures r.Ok? ==> pos < r.next <= |text|
  {
    if At(text, pos, "null") then Ok(Null, pos + 4) else Fails("invalid literal", pos)
  }

  function ValueAt(f: NumberFormat, text: string, pos: nat): (r: Parsed<Value>)
    requires pos <= |text|
    ensures r.Ok? ==> pos < r.next <= |text|
    decreases |text| - pos, 1
  {
    if pos == |text| then Fails("unexpected end of input", pos)
    else
      match text[pos]
      case '{' =>
        var p := SkipSpace(text, pos + 1);
        if p < |text| && text[p] == '}' then Ok(Object([]), p + 1) else MembersAt(f, text, p, [])
      case '[' =>
        var p := SkipSpace(text, pos + 1);
        if p < |text| && text[p] == ']' then Ok(Array([]), p + 1) else ElementsAt(f, text, p, [])
      case '"' =>
        (match StringAt(text, pos)
         case Ok(s, next) => Ok(String(s), next)
         case Err(e) => Err(e))
      case 't' => BoolAt(text, pos)
      case 'f' => BoolAt(text, pos)
      case 'n' => NullAt(text, pos)
      case _ => NumberAt(f, text, pos)
  }

  function ElementAt(f: NumberFormat, text: string, pos: nat): (r: Parsed<Value>)
    requires pos <= |text|
    ensures r.Ok? ==> pos < r.next <= |text|
    decreases |text| - pos, 2
  {
    ValueAt(f, text, SkipSpace(text, pos))
  }

  /** The rest of an array from pos, where an element is due. */
  function ElementsAt(f: NumberFormat, text: string, pos: nat, read: seq<Value>): (r: Parsed<Value>)
    requires pos <= |text|
    ensures r.Ok? ==> pos < r.next <= |text|
    decreases |text| - pos, 4
  {
    match ElementAt(f, text, pos)
    case Err(e) => Err(e)
    case Ok(v, next) => AfterElement(f, text, SkipSpace(text, next), read + [v])
  }

  function AfterElement(f: NumberFormat, text: string, pos: nat, read: seq<Value>): (r: Parsed<Value>)
    requires pos <= |text|
    ensures r.Ok? ==> pos < r.next <= |text|
    decreases |text| - pos, 3
  {
    if pos == |text| then Fails("unterminated array", pos)
    else if text[pos] == ',' then ElementsAt(f, text, pos + 1, read)
    else if text[pos] == ']' then Ok(Array(read), pos + 1)
    else Fails("expected ',' or ']'", pos)
  }

  /** A key, its colon and its value. */
  function MemberAt(f: NumberFormat, text: string, pos: nat): (r: Parsed<Member>)
    requires pos <= |text|
    ensures r.Ok? ==> pos < r.next <= |text|
    decreases |text| - pos, 2
  {
    var start := SkipSpace(text, pos);
    if start == |text| || text[start] != '"' then Fails("expected string key", start)
    else
      match StringAt(text, start)
      case Err(e) => Err(e)
      case Ok(key, after) =>
        var colon := SkipSpace(text, after);
        if colon == |text| || text[colon] != ':' then Fails("expected ':'", colon)
        else
          match ValueAt(f, text, SkipSpace(text, colon + 1))
          case Err(e) => Err(e)
          case Ok(v, next) => Ok(Member(key, v), next)
  }

  /** The rest of an object from pos, where a member is due. */
  function MembersAt(f: NumberFormat, text: string, pos: nat, read: seq<Member>): (r: Parsed<Value>)
    requires pos <= |text|
    ensures r.Ok? ==> pos < r.next <= |text|
    decreases |text| - pos, 4
  {
    match MemberAt(f, text, pos)
    case Err(e) => Err(e)
    case Ok(m, next) => AfterMember(f, text, SkipSpace(text, next), read + [m])
  }

  function AfterMember(f: NumberFormat, text: string, pos: nat, read: seq<Member>): (r: Parsed<Value>)
    requires pos <= |text|
    ensures r.Ok? ==> pos < r.next <= |text|
    decreases |text| - pos, 3
  {
    if pos == |text| then Fails("unterminated object", pos)
    else if text[pos] == ',' then MembersAt(f, text, pos + 1, read)
    else if text[pos] == '}' then Ok(Object(read), pos + 1)
    else Fails("expected ',' or '}'", pos)
  }

  datatype Result<+T> = Success(value: T) | Failure(error: Error)

  /** One value between white space, and nothing else. */
  function Parse(f: NumberFormat, text: string): Result<Value> {
    match ValueAt(f, text, SkipSpace(text, 0))
    case Err(e) => Failure(e)
    case Ok(v, after) =>
      var p := SkipSpace(text, after);
      if p != |text| then Failure(Error("unexpected trailing content", p)) else Success(v)
  }

  lemma EnterArray(f: NumberFormat, text: string, pos: nat)
    requires pos < |text| && text[pos] == '['
    ensures var p := SkipSpace(text, pos + 1);
            ValueAt(f, text, pos) == if p < |text| && text[p] == ']' then Ok(Array([]), p + 1) else ElementsAt(f, text, p, [])
  {
  }

  lemma EnterObject(f: NumberFormat, text: string, pos: nat)
    requires pos < |text| && text[pos] == '{'
    ensures var p := SkipSpace(text, pos + 1);
            ValueAt(f, text, pos) == if p < |text| && text[p] == '}' then Ok(Object([]), p + 1) else MembersAt(f, text, p, [])
  {
  }

  class Parser {
    const format: NumberFormat
    const text: string
    var position: nat
    var error: Error

    constructor (format: NumberFormat, text: string)
      ensures this.format == format && this.text == text && position == 0
    {
      this.format := format;
      this.text := text;
      position := 0;
      error := Error("", 0);
    }

    /** How a rule ended: position and out-parameter on success, position and error on failure. */
    ghost predicate Ended<T>(r: Parsed<T>, ok: bool, out: T)
      reads this
    {
      && position <= |text|
      && match r
         case Ok(v, next) => ok && out == v && position == next
         case Err(e) => !ok && error == e && position == e.offset
    }

    method SkipWhitespace()
      requires position <= |text|
      modifies this`position
      ensures position == SkipSpace(text, old(position))
    {
      while position < |text| && IsSpace(text[position])
        invariant position <= |text|
        invariant SkipSpace(text, position) == SkipSpace(text, old(position))
      {
        position := position + 1;
      }
    }

    method Fail(message: string)
      modifies this`error
      ensures error == Error(message, position)
    {
      error := Error(message, position);
    }

    method Expect(expected: char) returns (ok: bool)
      requires position <= |text|
      modifies this
      ensures ok <==> old(position) < |text| && text[old(position)] == expected
      ensures position == old(position) + if ok then 1 else 0
      ensures !ok ==> error == Error("expected '" + [expected] + "'", position)
    {
      if position == |text| || text[position] != expected {
        Fail("expected '" + [expected] + "'");
        return false;
      }
      position := position + 1;
      return true;
    }

    /** The four hexadecimal digits of a \u escape. */
    method ParseCodePoint() returns (ok: bool, codepoint: nat)
      requires position + 4 <= |text|
      modifies this`error
      ensures match CodePoint(text, position, 4)
              case None => !ok && error == Error("invalid unicode escape", position)
              case Some(c) => ok && codepoint == c
    {
      codepoint := 0;
      for i := 0 to 4
        invariant CodePoint(text, position, i) == Some(codepoint)
      {
        var digit := HexDigit(text[position + i]);
        if digit.None? {
          UnreadableDigit(text, position, i + 1, 4);
          Fail("invalid unicode escape");
          return false, 0;
        }
        codepoint := codepoint * 16 + digit.value;
      }
      ok := true;
    }

    method ParseString() returns (ok: bool, out: string)
      requires position <= |text|
      modifies this
      ensures Ended(StringAt(text, old(position)), ok, out)
    {
      out := "";
      ok := Expect('"');
      if !ok { return; }
      while true
        invariant position <= |text| && ok
        invariant CharsAt(text, position, out) == StringAt(text, old(position))
        decreases |text| - position
      {
        if position == |text| {
          Fail("unterminated string");
          return false, out;
        }
        var c := text[position];
        if c == '"' {
          position := position + 1;
          break;
        }
        if c == '\\' {
          ok, out := ParseEscape(out);
          if !ok { return; }
          continue;
        }
        out := out + [c];
        position := position + 1;
      }
    }

    /** One escape sequence, inside a string literal of which read was read before. */
    method ParseEscape(read: string) returns (ok: bool, out: string)
      requires position < |text| && text[position] == '\\'
      modifies this
      ensures position <= |text|
      ensures ok ==> old(position) < position
                     && CharsAt(text, position, out) == CharsAt(text, old(position), read)
      ensures !ok ==> CharsAt(text, old(position), read) == Err(error) && position == error.offset
    {
      out := read;
      ok := false;
      position := position + 1;
      if position == |text| {
        Fail("unterminated escape sequence");
        return;
      }
      var escaped := text[position];
      position := position + 1;
      if escaped == 'u' {
        if position + 4 > |text| {
          Fail("invalid unicode escape");
          return;
        }
        var codepoint;
        ok, codepoint := ParseCodePoint();
        if !ok { return; }
        position := position + 4;
        out := out + Utf8(codepoint);
        return;
      }
      var c := Unescape(escaped);
      if c.None? {
        Fail("invalid escape sequence");
        return;
      }
      out := out + [c.value];
      ok := true;
    }

    method ParseBool() returns (ok: bool, out: Value)
      requires position <= |text|
      modifies this
      ensures Ended(BoolAt(text, old(position)), ok, out)
    {
      if At(text, position, "true") {
        position := position + 4;
        return true, Bool(true);
      }
      if At(text, position, "false") {
        position := position + 5;
        return true, Bool(false);
      }
      Fail("invalid literal");
      return false, Null;
    }

    method ParseNull() returns (ok: bool, out: Value)
      requires position <= |text|
      modifies this
      ensures Ended(NullAt(text, old(position)), ok, out)
    {
      if At(text, position, "null") {
        position := position + 4;
        return true, Null;
      }
      Fail("invalid literal");
      return false, Null;
    }

    method ParseNumber() returns (ok: bool, out: Value)
      requires position <= |text|
      modifies this
      ensures Ended(NumberAt(format, text, old(position)), ok, out)
    {
      var start := position;
      out := Null;
      if position < |text| && text[position] == '-' {
        position := position + 1;
      }
      while position < |text| && IsNumberChar(text[position])
        invariant start <= position <= |text|
        invariant SkipNumber(text, position) == SkipNumber(text, start)
      {
        position := position + 1;
      }
      if position == start {
        Fail("invalid number");
        return false, out;
      }
      var value := format.read(text[start..position]);
      if value.None? {
        Fail("invalid number");
        return false, out;
      }
      return true, Number(value.value);
    }

    method ParseValue() returns (ok: bool, out: Value)
      requires position <= |text|
      modifies this
      ensures Ended(ValueAt(format, text, old(position)), ok, out)
      decreases |text| - position, 1
    {
      out := Null;
      if position == |text| {
        Fail("unexpected end of input");
        return false, out;
      }
      match text[position] {
        case '{' => ok, out := ParseObject();
        case '[' => ok, out := ParseArray();
        case '"' =>
          var s;
          ok, s := ParseString();
          if ok { out := String(s); }
        case 't' => ok, out := ParseBool();
        case 'f' => ok, out := ParseBool();
        case 'n' => ok, out := ParseNull();
        case _ => ok, out := ParseNumber();
      }
    }

    method ParseElement() returns (ok: bool, out: Value)
      requires position <= |text|
      modifies this
      ensures Ended(ElementAt(format, text, old(position)), ok, out)
      decreases |text| - position, 2
    {
      SkipWhitespace();
      ok, out := ParseValue();
    }

    method ParseArray() returns (ok: bool, out: Value)
      requires position < |text| && text[position] == '['
      modifies this
      ensures Ended(ValueAt(format, text, old(position)), ok, out)
      decreases |text| - position, 0
    {
      hide SkipSpace, ValueAt, ElementAt;
      EnterArray(format, text, position);
      out := Null;
      ok := Expect('[');
      SkipWhitespace();
      if position < |text| && text[position] == ']' {
        position := position + 1;
        return true, Array([]);
      }
      var elements: seq<Value> := [];
      while true
        invariant old(position) < position <= |text| && ok
        invariant ElementsAt(format, text, position, elements) == ValueAt(format, text, old(position))
        decreases |text| - position
      {
        var value;
        ok, value := ParseElement();
        if !ok { return; }
        elements := elements + [value];
        SkipWhitespace();
        assert AfterElement(format, text, position, elements) == ValueAt(format, text, old(position));
        if position == |text| {
          Fail("unterminated array");
          return false, out;
        }
        if text[position] == ',' {
          position := position + 1;
          continue;
        }
        if text[position] == ']' {
          position := position + 1;
          break;
        }
        Fail("expected ',' or ']'");
        return false, out;
      }
      out := Array(elements);
    }

    method ParseMember() returns (ok: bool, out: Member)
      requires position <= |text|
      modifies this
      ensures Ended(MemberAt(format, text, old(position)), ok, out)
      decreases |text| - position, 2
    {
      hide StringAt, SkipSpace;
      out := Member("", Null);
      SkipWhitespace();
      if position == |text| || text[position] != '"' {
        Fail("expected string key");
        return false, out;
      }
      var key;
      ok, key := ParseString();
      if !ok { return; }
      SkipWhitespace();
      ok := Expect(':');
      if !ok { return; }
      SkipWhitespace();
      var value;
      ok, value := ParseValue();
      if !ok { return; }
      out := Member(key, value);
    }

    method ParseObject() returns (ok: bool, out: Value)
      requires position < |text| && text[position] == '{'
      modifies this
      ensures Ended(ValueAt(format, text, old(position)), ok, out)
      decreases |text| - position, 0
    {
      hide SkipSpace, ValueAt, MemberAt;
      EnterObject(format, text, position);
      out := Null;
      ok := Expect('{');
      SkipWhitespace();
      if position < |text| && text[position] == '}' {
        position := position + 1;
        return true, Object([]);
      }
      var members: seq<Member> := [];
      while true
        invariant old(position) < position <= |text| && ok
        invariant MembersAt(format, text, position, members) == ValueAt(format, text, old(position))
        decreases |text| - position
      {
        var member;
        ok, member := ParseMember();
        if !ok { return; }
        members := members + [member];
        SkipWhitespace();
        assert AfterMember(format, text, position, members) == ValueAt(format, text, old(position));
        if position == |text| {
          Fail("unterminated object");
          return false, out;
        }
        if text[position] == ',' {
          position := position + 1;
          continue;
        }
        if text[position] == '}' {
          position := position + 1;
          break;
        }
        Fail("expected ',' or '}'");
        return false, out;
      }
      out := Object(members);
    }

    method Run() returns (r: Result<Value>)
      requires position == 0
      modifies this
      ensures r == Parse(format, text)
    {
      SkipWhitespace();
      var ok, value := ParseValue();
      if !ok { return Failure(error); }
      SkipWhitespace();
      if position != |text| {
        return Failure(Error("unexpected trailing content", position));
      }
      return Success(value);
    }
  }

  lemma {:induction false} UnreadableDigit(text: string, pos: nat, n: nat, m: nat)
    requires n <= m <= 4 && pos + m <= |text|
    requires CodePoint(text, pos, n).None?
    ensures CodePoint(text, pos, m).None?
  {
    if n < m { UnreadableDigit(text, pos, n, m - 1); }
  }

  method ParseText(f: NumberFormat, text: string) returns (r: Result<Value>)
    ensures r == Parse(f, text)
  {
    var parser := new Parser(f, text);
    r := parser.Run();
  }

  /** Different code points have different encodings, none of them a prefix of another. */
  lemma Utf8PrefixFree(c: nat, d: nat)
    requires c <= 0xFFFF && d <= 0xFFFF
    requires Utf8(c) <= Utf8(d)
    ensures c == d
  {
    assert Utf8(c)[0] == Utf8(d)[0];
    if c <= 0x7F {
    } else if c <= 0x7FF {
      assert c / 0x40 == d / 0x40 && Utf8(c)[1] == Utf8(d)[1];
    } else {
      assert c / 0x1000 == d / 0x1000 && Utf8(c)[1] == Utf8(d)[1] && Utf8(c)[2] == Utf8(d)[2];
      assert c / 0x40 % 0x40 == d / 0x40 % 0x40 && c / 0x40 == c / 0x1000 * 0x40 + c / 0x40 % 0x40;
    }
  }

  /** The encoding of a code point is the UTF-8 one: its length, the ranges of its bytes, and their payload bits. */
  lemma Utf8Means(c: nat)
    requires c <= 0xFFFF
    ensures var b := Utf8(c);
            && |b| == (if c < 0x80 then 1 else if c < 0x800 then 2 else 3)
            && (|b| == 1 ==> b[0] as int == c)
            && (|b| == 2 ==> 0xC0 <= b[0] as int < 0xE0 && c == 0x40 * (b[0] as int - 0xC0) + (b[1] as int - 0x80))
            && (|b| == 3 ==> 0xE0 <= b[0] as int < 0xF0
                             && c == 0x1000 * (b[0] as int - 0xE0) + 0x40 * (b[1] as int - 0x80) + (b[2] as int - 0x80))
            && (forall i :: 0 < i < |b| ==> 0x80 <= b[i] as int < 0xC0)
  {
  }
}
