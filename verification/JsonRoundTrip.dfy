/** Parsing undoes printing: everywhere for strings, booleans, null and structure, and for a number exactly
    when its printed form reads back as the same double. */
module JsonRoundTrip {
  import opened Options
  import opened JsonValue
  import opened JsonParser
  import opened JsonWriter
  import opened Sequences

  predicate IsToken(w: string) {
    w != "" && forall i :: 0 <= i < |w| ==> IsNumberChar(w[i])
  }

  predicate IsNonFinite(w: string) {
    w == "inf" || w == "-inf" || w == "nan" || w == "-nan"
  }

  /** What the C++ library promises of the two conversions. Nothing says that they are inverse: operator<<
      keeps six significant digits. */
  ghost predicate Standard(f: NumberFormat) {
    && f.read("-") == None
    && forall x :: IsToken(f.show(x)) || IsNonFinite(f.show(x))
  }

  /** The double that reading back the printed form of x gives, if any. */
  function RereadNumber(f: NumberFormat, x: Double): Option<Double> {
    if IsToken(f.show(x)) then f.read(f.show(x)) else None
  }

  ghost function Readable(f: NumberFormat): Double -> bool {
    (x: Double) => RereadNumber(f, x).Some?
  }

  ghost function Unchanged(f: NumberFormat): Double -> bool {
    (x: Double) => RereadNumber(f, x) == Some(x)
  }

  function Reread(f: NumberFormat, v: Value): Option<Value>
    decreases v, 0
  {
    match v
    case Number(x) =>
      (match RereadNumber(f, x)
       case None => None
       case Some(y) => Some(Number(y)))
    case Array(elements) =>
      (match RereadElements(f, elements, 0)
       case None => None
       case Some(read) => Some(Array(read)))
    case Object(members) =>
      (match RereadMembers(f, members, 0)
       case None => None
       case Some(read) => Some(Object(read)))
    case _ => Some(v)
  }

  function RereadElements(f: NumberFormat, elements: seq<Value>, i: nat): (r: Option<seq<Value>>)
    requires i <= |elements|
    decreases elements, |elements| - i
  {
    if i == |elements| then Some([])
    else
      match Reread(f, elements[i])
      case None => None
      case Some(v) =>
        match RereadElements(f, elements, i + 1)
        case None => None
        case Some(rest) => Some([v] + rest)
  }

  function RereadMembers(f: NumberFormat, members: seq<Member>, i: nat): (r: Option<seq<Member>>)
    requires i <= |members|
    decreases members, |members| - i
  {
    if i == |members| then Some([])
    else
      match Reread(f, members[i].value)
      case None => None
      case Some(v) =>
        match RereadMembers(f, members, i + 1)
        case None => None
        case Some(rest) => Some([Member(members[i].key, v)] + rest)
  }

  function ArrayOf(read: seq<Value>, rest: Option<seq<Value>>): Option<Value> {
    match rest
    case None => None
    case Some(more) => Some(Array(read + more))
  }

  function ObjectOf(read: seq<Member>, rest: Option<seq<Member>>): Option<Value> {
    match rest
    case None => None
    case Some(more) => Some(Object(read + more))
  }

  lemma AtSplit(text: string, pos: nat, a: string, b: string)
    requires At(text, pos, a + b)
    ensures At(text, pos, a) && At(text, pos + |a|, b)
    ensures a != "" ==> text[pos] == a[0]
  {
    var both := text[pos..pos + |a + b|];
    assert both[..|a|] == a && both[|a|..] == b;
    assert text[pos..pos + |a|] == both[..|a|];
    assert text[pos + |a|..pos + |a| + |b|] == both[|a|..];
  }

  lemma AtChar(text: string, pos: nat, word: string, k: nat)
    requires At(text, pos, word) && k < |word|
    ensures text[pos + k] == word[k]
  {
    assert text[pos..pos + |word|][k] == text[pos + k];
  }

  lemma AtEnds(text: string, pos: nat, word: string)
    requires At(text, pos, word)
    ensures pos + |word| <= |text|
  {
  }

  lemma EscapedCharReadsBack(text: string, pos: nat, c: char, read: string)
    requires At(text, pos, Escape(c)) && pos + |Escape(c)| < |text|
    ensures CharsAt(text, pos, read) == CharsAt(text, pos + |Escape(c)|, read + [c])
  {
    AtChar(text, pos, Escape(c), 0);
    if |Escape(c)| == 2 {
      AtChar(text, pos, Escape(c), 1);
    }
  }

  lemma ClosingQuote(text: string, pos: nat, read: string)
    requires At(text, pos, "\"")
    ensures CharsAt(text, pos, read) == Ok(read, pos + 1)
  {
    AtChar(text, pos, "\"", 0);
  }

  lemma {:induction false} CharsReadBack(text: string, pos: nat, s: string, read: string)
    requires At(text, pos, EscapeAll(s) + "\"")
    ensures CharsAt(text, pos, read) == Ok(read + s, pos + |EscapeAll(s)| + 1)
    decreases s
  {
    hide Escape, CharsAt, At;
    if s == "" {
      assert EscapeAll(s) + "\"" == "\"" && read + s == read;
      ClosingQuote(text, pos, read);
    } else {
      var rest := EscapeAll(s[1..]) + "\"";
      Regroup(Escape(s[0]), EscapeAll(s[1..]), "\"");
      AtSplit(text, pos, Escape(s[0]), rest);
      AtEnds(text, pos + |Escape(s[0])|, rest);
      EscapedCharReadsBack(text, pos, s[0], read);
      CharsReadBack(text, pos + |Escape(s[0])|, s[1..], read + [s[0]]);
      assert read + [s[0]] + s[1..] == read + s;
    }
  }

  /** Whatever bytes the string holds. */
  lemma StringReadsBack(text: string, pos: nat, s: string)
    requires At(text, pos, Quote(s))
    ensures StringAt(text, pos) == Ok(s, pos + |Quote(s)|)
  {
    hide CharsAt, EscapeAll;
    assert Quote(s) == "\"" + (EscapeAll(s) + "\"");
    AtSplit(text, pos, "\"", EscapeAll(s) + "\"");
    CharsReadBack(text, pos + 1, s, "");
    assert "" + s == s;
  }

  /** A printed number ends before pos. */
  predicate NumberEnds(text: string, pos: nat) {
    pos < |text| && !IsNumberChar(text[pos])
  }

  lemma NumberReadsBack(f: NumberFormat, x: Double, text: string, pos: nat)
    requires Standard(f) && At(text, pos, f.show(x)) && NumberEnds(text, pos + |f.show(x)|)
    ensures match RereadNumber(f, x)
            case None => ValueAt(f, text, pos).Err?
            case Some(y) => ValueAt(f, text, pos) == Ok(Number(y), pos + |f.show(x)|)
  {
    var w := f.show(x);
    forall k | pos <= k < pos + |w| ensures text[k] == w[k - pos] {
      AtChar(text, pos, w, k - pos);
    }
    if IsToken(w) {
      assert IsNumberChar(text[pos]);
      TokenEnds(text, pos, pos + |w|);
    } else if w[0] == '-' {
      assert text[pos + 1] == w[1];
      MinusFails(f, text, pos);
    } else if w == "nan" {
      assert text[pos + 1] == 'a';
      NanFails(f, text, pos);
    } else {
      InfFails(f, text, pos);
    }
  }

  lemma MinusFails(f: NumberFormat, text: string, pos: nat)
    requires Standard(f) && pos + 1 < |text| && text[pos] == '-' && !IsNumberChar(text[pos + 1])
    ensures ValueAt(f, text, pos).Err?
  {
    TokenEnds(text, pos, pos + 1);
    assert text[pos..pos + 1] == "-";
  }

  lemma NanFails(f: NumberFormat, text: string, pos: nat)
    requires pos + 1 < |text| && text[pos] == 'n' && text[pos + 1] == 'a'
    ensures ValueAt(f, text, pos).Err?
  {
    if At(text, pos, "null") {
      AtChar(text, pos, "null", 1);
      assert false;
    }
  }

  lemma InfFails(f: NumberFormat, text: string, pos: nat)
    requires pos < |text| && text[pos] == 'i'
    ensures ValueAt(f, text, pos).Err?
  {
    TokenEnds(text, pos, pos);
  }

  lemma TokenEnds(text: string, pos: nat, end: nat)
    requires pos <= end < |text| && !IsNumberChar(text[end])
    requires forall k :: pos <= k < end ==> IsNumberChar(text[k])
    ensures SkipNumber(text, pos) == end
  {
  }

  /** White space from pos to start, and none at start. */
  predicate SpaceUpTo(text: string, pos: nat, start: nat) {
    pos <= start < |text| && !IsSpace(text[start]) && forall k :: pos <= k < start ==> IsSpace(text[k])
  }

  lemma SpaceEnds(text: string, pos: nat, start: nat)
    requires SpaceUpTo(text, pos, start)
    ensures SkipSpace(text, pos) == start
  {
  }

  predicate StartsToken(c: char) {
    !IsSpace(c) && c != ']' && c != '}'
  }

  lemma WriteStarts(f: NumberFormat, v: Value, indent: nat)
    requires Standard(f)
    ensures var w := Write(f, v, indent); w != "" && StartsToken(w[0])
  {
    hide EscapeAll, WriteElements, WriteMembers;
  }

  /** r is the expected value, read up to end, or a failure when none is expected. */
  ghost predicate ReadAs<T>(r: Parsed<T>, expected: Option<T>, end: nat) {
    match expected
    case None => r.Err?
    case Some(v) => r == Ok(v, end)
  }

  /** Wherever the printed form of a value stands, followed by something that does not continue a number, the
      parser reads the value and stops exactly behind it. */
  lemma {:induction false} ReadsBack(f: NumberFormat, v: Value, indent: nat, text: string, pos: nat)
    requires Standard(f)
    requires At(text, pos, Write(f, v, indent)) && NumberEnds(text, pos + |Write(f, v, indent)|)
    ensures ReadAs(ValueAt(f, text, pos), Reread(f, v), pos + |Write(f, v, indent)|)
    decreases v, 0
  {
    WriteStarts(f, v, indent);
    var w := Write(f, v, indent);
    AtChar(text, pos, w, 0);
    match v {
      case Number(x) => NumberReadsBack(f, x, text, pos);
      case String(s) => StringReadsBack(text, pos, s);
      case Array(elements) => ArrayReadsBack(f, elements, indent, text, pos);
      case Object(members) => ObjectReadsBack(f, members, indent, text, pos);
      case _ =>
    }
  }

  lemma LineOfElement(f: NumberFormat, elements: seq<Value>, i: nat, indent: nat, text: string, line: nat)
    requires i < |elements| && At(text, line, WriteElements(f, elements, i, indent))
    ensures At(text, line, Padding(indent + 1) + Write(f, elements[i], indent + 1) + Separator(i + 1 == |elements|))
    ensures At(text, line + |ElementLine(f, elements, i, indent)|, WriteElements(f, elements, i + 1, indent))
    ensures |WriteElements(f, elements, i, indent)|
            == |ElementLine(f, elements, i, indent)| + |WriteElements(f, elements, i + 1, indent)|
  {
    hide Write, Separator, At;
    AtSplit(text, line, ElementLine(f, elements, i, indent), WriteElements(f, elements, i + 1, indent));
  }

  lemma LineOfMember(f: NumberFormat, members: seq<Member>, i: nat, indent: nat, text: string, line: nat)
    requires i < |members| && At(text, line, WriteMembers(f, members, i, indent))
    ensures At(text, line, Padding(indent + 1) + Quote(members[i].key) + ": " + Write(f, members[i].value, indent + 1)
                           + Separator(i + 1 == |members|))
    ensures At(text, line + |MemberLine(f, members, i, indent)|, WriteMembers(f, members, i + 1, indent))
    ensures |WriteMembers(f, members, i, indent)|
            == |MemberLine(f, members, i, indent)| + |WriteMembers(f, members, i + 1, indent)|
  {
    hide Write, Separator, Quote, At;
    AtSplit(text, line, MemberLine(f, members, i, indent), WriteMembers(f, members, i + 1, indent));
  }

  lemma AtQuote(text: string, pos: nat, s: string)
    requires At(text, pos, Quote(s))
    ensures text[pos] == '"'
  {
    AtChar(text, pos, Quote(s), 0);
  }

  /** Splits the line of element i into padding, value and separator. */
  lemma ElementParts(f: NumberFormat, elements: seq<Value>, i: nat, indent: nat, text: string, line: nat)
    returns (start: nat, after: nat, next: nat)
    requires Standard(f) && i < |elements| && At(text, line, WriteElements(f, elements, i, indent))
    ensures SpaceUpTo(text, line, start) && StartsToken(text[start])
    ensures At(text, start, Write(f, elements[i], indent + 1)) && after == start + |Write(f, elements[i], indent + 1)|
    ensures At(text, after, Separator(i + 1 == |elements|)) && next == after + |Separator(i + 1 == |elements|)|
    ensures At(text, next, WriteElements(f, elements, i + 1, indent))
    ensures line + |WriteElements(f, elements, i, indent)| == next + |WriteElements(f, elements, i + 1, indent)|
  {
    hide Write, Separator, WriteElements;
    LineOfElement(f, elements, i, indent, text, line);
    var padding, w, separator := Padding(indent + 1), Write(f, elements[i], indent + 1), Separator(i + 1 == |elements|);
    AtSplit(text, line, padding + w, separator);
    AtSplit(text, line, padding, w);
    start, after := line + |padding|, line + |padding + w|;
    next := after + |separator|;
    WriteStarts(f, elements[i], indent + 1);
    AtChar(text, start, w, 0);
    SpacesAt(text, line, indent + 1);
  }

  lemma MemberParts(f: NumberFormat, members: seq<Member>, i: nat, indent: nat, text: string, line: nat)
    returns (start: nat, colon: nat, after: nat, next: nat)
    requires Standard(f) && i < |members| && At(text, line, WriteMembers(f, members, i, indent))
    ensures SpaceUpTo(text, line, start) && text[start] == '"'
    ensures At(text, start, Quote(members[i].key)) && colon == start + |Quote(members[i].key)|
    ensures At(text, colon, ": ")
    ensures At(text, colon + 2, Write(f, members[i].value, indent + 1))
    ensures after == colon + 2 + |Write(f, members[i].value, indent + 1)|
    ensures At(text, after, Separator(i + 1 == |members|)) && next == after + |Separator(i + 1 == |members|)|
    ensures At(text, next, WriteMembers(f, members, i + 1, indent))
    ensures line + |WriteMembers(f, members, i, indent)| == next + |WriteMembers(f, members, i + 1, indent)|
  {
    hide Write, Separator, WriteMembers, Quote;
    LineOfMember(f, members, i, indent, text, line);
    var padding, key, w := Padding(indent + 1), Quote(members[i].key), Write(f, members[i].value, indent + 1);
    var separator := Separator(i + 1 == |members|);
    AtSplit(text, line, padding + key + ": " + w, separator);
    AtSplit(text, line, padding + key + ": ", w);
    AtSplit(text, line, padding + key, ": ");
    AtSplit(text, line, padding, key);
    start, colon := line + |padding|, line + |padding + key|;
    after, next := colon + 2 + |w|, colon + 2 + |w| + |separator|;
    AtQuote(text, start, members[i].key);
    SpacesAt(text, line, indent + 1);
  }

  lemma SpacesAt(text: string, line: nat, indent: nat)
    requires At(text, line, Padding(indent))
    ensures forall k :: line <= k < line + 2 * indent ==> IsSpace(text[k])
  {
    forall k | line <= k < line + 2 * indent ensures IsSpace(text[k]) {
      AtChar(text, line, Padding(indent), k - line);
    }
  }

  lemma ClosingLine(text: string, newline: nat, indent: nat, bracket: char)
    requires At(text, newline, "\n") && At(text, newline + 1, Padding(indent) + [bracket]) && !IsSpace(bracket)
    ensures SkipSpace(text, newline) == newline + 1 + 2 * indent < |text|
    ensures text[newline + 1 + 2 * indent] == bracket
  {
    var close := newline + 1 + 2 * indent;
    AtChar(text, newline, "\n", 0);
    AtSplit(text, newline + 1, Padding(indent), [bracket]);
    AtChar(text, close, [bracket], 0);
    SpacesAt(text, newline + 1, indent);
    SpaceEnds(text, newline, close);
  }

  lemma SeparatorEndsNumber(text: string, after: nat, last: bool)
    requires At(text, after, Separator(last))
    ensures NumberEnds(text, after)
  {
    AtChar(text, after, Separator(last), 0);
  }

  lemma ElementIsValue(f: NumberFormat, text: string, pos: nat)
    requires pos <= |text|
    ensures ElementAt(f, text, pos) == ValueAt(f, text, SkipSpace(text, pos))
  {
  }

  lemma OpenArray(f: NumberFormat, elements: seq<Value>, indent: nat, text: string, pos: nat)
    requires elements != [] && At(text, pos, Write(f, Array(elements), indent))
    ensures text[pos] == '[' && At(text, pos + 2, WriteElements(f, elements, 0, indent))
    ensures SkipSpace(text, pos + 1) == SkipSpace(text, pos + 2)
  {
    hide WriteElements;
    AtSplit(text, pos, "[\n", WriteElements(f, elements, 0, indent));
    AtChar(text, pos, "[\n", 0);
    AtChar(text, pos, "[\n", 1);
  }

  lemma {:induction false} ArrayReadsBack(f: NumberFormat, elements: seq<Value>, indent: nat, text: string, pos: nat)
    requires Standard(f) && At(text, pos, Write(f, Array(elements), indent))
    ensures ReadAs(ValueAt(f, text, pos), Reread(f, Array(elements)), pos + |Write(f, Array(elements), indent)|)
    decreases elements, |elements|, 2
  {
    hide ElementsAt, WriteElements, ValueAt, SkipSpace;
    if elements == [] {
      AtChar(text, pos, "[]", 0);
      AtChar(text, pos, "[]", 1);
      EnterArray(f, text, pos);
      SpaceEnds(text, pos + 1, pos + 1);
    } else {
      hide At;
      OpenArray(f, elements, indent, text, pos);
      EnterArray(f, text, pos);
      var start, after, next := ElementParts(f, elements, 0, indent, text, pos + 2);
      SpaceEnds(text, pos + 2, start);
      SpaceEnds(text, start, start);
      ElementsReadBack(f, elements, 0, indent, text, start, pos + 2, []);
      var rest := RereadElements(f, elements, 0);
      assert rest.Some? ==> [] + rest.value == rest.value;
    }
  }

  lemma LastElement(f: NumberFormat, read: seq<Value>, indent: nat, text: string, after: nat)
    requires At(text, after, Separator(true)) && At(text, after + 1, Padding(indent) + "]")
    ensures AfterElement(f, text, SkipSpace(text, after), read) == Ok(Array(read), after + 2 + 2 * indent)
  {
    hide SkipSpace, ElementsAt;
    ClosingLine(text, after, indent, ']');
  }

  lemma NextElement(f: NumberFormat, read: seq<Value>, text: string, after: nat)
    requires At(text, after, Separator(false))
    ensures after + 2 <= |text|
    ensures AfterElement(f, text, SkipSpace(text, after), read) == ElementsAt(f, text, after + 1, read)
    ensures SkipSpace(text, after + 1) == SkipSpace(text, after + 2)
  {
    hide ElementsAt;
    AtChar(text, after, Separator(false), 0);
    AtChar(text, after, Separator(false), 1);
    SpaceEnds(text, after, after);
  }

  /** The elements from i on, when those before are read and only white space is left before this one. */
  lemma {:induction false} ElementsReadBack(f: NumberFormat, elements: seq<Value>, i: nat, indent: nat, text: string,
                                          pos: nat, line: nat, read: seq<Value>)
    requires Standard(f) && i < |elements| && At(text, line, WriteElements(f, elements, i, indent))
    requires pos <= |text| && line <= |text| && SkipSpace(text, pos) == SkipSpace(text, line)
    ensures ReadAs(ElementsAt(f, text, pos, read), ArrayOf(read, RereadElements(f, elements, i)),
                   line + |WriteElements(f, elements, i, indent)|)
    decreases elements, |elements| - i, 0
  {
    hide SkipSpace, ElementAt, AfterElement, Write, Reread, ValueAt, At, Padding, ElementLine;
    var start, after, next := ElementParts(f, elements, i, indent, text, line);
    SpaceEnds(text, line, start);
    SeparatorEndsNumber(text, after, i + 1 == |elements|);
    ReadsBack(f, elements[i], indent + 1, text, start);
    ElementIsValue(f, text, pos);
    if Reread(f, elements[i]).Some? {
      var v := Reread(f, elements[i]).value;
      var more := read + [v];
      assert ElementsAt(f, text, pos, read) == AfterElement(f, text, SkipSpace(text, after), more);
      if i + 1 == |elements| {
        LastElement(f, more, indent, text, after);
        assert more == read + ([v] + []);
      } else {
        NextElement(f, more, text, after);
        ElementsReadBack(f, elements, i + 1, indent, text, after + 1, next, more);
        var rest := RereadElements(f, elements, i + 1);
        assert rest.Some? ==> more + rest.value == read + ([v] + rest.value);
      }
    }
  }

  lemma {:induction false} MemberReadsBack(f: NumberFormat, members: seq<Member>, i: nat, indent: nat, text: string,
                                          pos: nat, start: nat, colon: nat, after: nat)
    requires Standard(f) && i < |members|
    requires pos <= |text| && SkipSpace(text, pos) == start < |text| && text[start] == '"'
    requires At(text, start, Quote(members[i].key)) && colon == start + |Quote(members[i].key)|
    requires At(text, colon, ": ")
    requires At(text, colon + 2, Write(f, members[i].value, indent + 1))
    requires after == colon + 2 + |Write(f, members[i].value, indent + 1)| && NumberEnds(text, after)
    ensures ReadAs(MemberAt(f, text, pos),
                   match Reread(f, members[i].value) case None => None case Some(v) => Some(Member(members[i].key, v)),
                   after)
    decreases members, |members| - i, 0
  {
    hide SkipSpace, StringAt, Quote, Write, Reread, ValueAt, NumberEnds, RereadMembers, WriteMembers;
    StringReadsBack(text, start, members[i].key);
    AtChar(text, colon, ": ", 0);
    AtChar(text, colon, ": ", 1);
    SpaceEnds(text, colon, colon);
    WriteStarts(f, members[i].value, indent + 1);
    AtChar(text, colon + 2, Write(f, members[i].value, indent + 1), 0);
    SpaceEnds(text, colon + 1, colon + 2);
    ReadsBack(f, members[i].value, indent + 1, text, colon + 2);
  }

  lemma OpenObject(f: NumberFormat, members: seq<Member>, indent: nat, text: string, pos: nat)
    requires members != [] && At(text, pos, Write(f, Object(members), indent))
    ensures text[pos] == '{' && At(text, pos + 2, WriteMembers(f, members, 0, indent))
    ensures SkipSpace(text, pos + 1) == SkipSpace(text, pos + 2)
  {
    hide WriteMembers;
    AtSplit(text, pos, "{\n", WriteMembers(f, members, 0, indent));
    AtChar(text, pos, "{\n", 0);
    AtChar(text, pos, "{\n", 1);
  }

  lemma {:induction false} ObjectReadsBack(f: NumberFormat, members: seq<Member>, indent: nat, text: string, pos: nat)
    requires Standard(f) && At(text, pos, Write(f, Object(members), indent))
    ensures ReadAs(ValueAt(f, text, pos), Reread(f, Object(members)), pos + |Write(f, Object(members), indent)|)
    decreases members, |members|, 2
  {
    hide MembersAt, WriteMembers, ValueAt, SkipSpace;
    if members == [] {
      AtChar(text, pos, "{}", 0);
      AtChar(text, pos, "{}", 1);
      EnterObject(f, text, pos);
      SpaceEnds(text, pos + 1, pos + 1);
    } else {
      hide At;
      OpenObject(f, members, indent, text, pos);
      EnterObject(f, text, pos);
      var start, colon, after, next := MemberParts(f, members, 0, indent, text, pos + 2);
      SpaceEnds(text, pos + 2, start);
      SpaceEnds(text, start, start);
      MembersReadBack(f, members, 0, indent, text, start, pos + 2, []);
      var rest := RereadMembers(f, members, 0);
      assert rest.Some? ==> [] + rest.value == rest.value;
    }
  }

  lemma LastMember(f: NumberFormat, read: seq<Member>, indent: nat, text: string, after: nat)
    requires At(text, after, Separator(true)) && At(text, after + 1, Padding(indent) + "}")
    ensures AfterMember(f, text, SkipSpace(text, after), read) == Ok(Object(read), after + 2 + 2 * indent)
  {
    hide SkipSpace, MembersAt;
    ClosingLine(text, after, indent, '}');
  }

  lemma NextMember(f: NumberFormat, read: seq<Member>, text: string, after: nat)
    requires At(text, after, Separator(false))
    ensures after + 2 <= |text|
    ensures AfterMember(f, text, SkipSpace(text, after), read) == MembersAt(f, text, after + 1, read)
    ensures SkipSpace(text, after + 1) == SkipSpace(text, after + 2)
  {
    hide MembersAt;
    AtChar(text, after, Separator(false), 0);
    AtChar(text, after, Separator(false), 1);
    SpaceEnds(text, after, after);
  }

  /** The members from i on, when those before are read and only white space is left before this one. */
  lemma {:induction false} MembersReadBack(f: NumberFormat, members: seq<Member>, i: nat, indent: nat, text: string,
                                          pos: nat, line: nat, read: seq<Member>)
    requires Standard(f) && i < |members| && At(text, line, WriteMembers(f, members, i, indent))
    requires pos <= |text| && line <= |text| && SkipSpace(text, pos) == SkipSpace(text, line)
    ensures ReadAs(MembersAt(f, text, pos, read), ObjectOf(read, RereadMembers(f, members, i)),
                   line + |WriteMembers(f, members, i, indent)|)
    decreases members, |members| - i, 1
  {
    hide SkipSpace, MemberAt, AfterMember, Write, Reread, ValueAt, At, Padding, Quote, MemberLine;
    var start, colon, after, next := MemberParts(f, members, i, indent, text, line);
    SpaceEnds(text, line, start);
    SeparatorEndsNumber(text, after, i + 1 == |members|);
    MemberReadsBack(f, members, i, indent, text, pos, start, colon, after);
    if Reread(f, members[i].value).Some? {
      var v := Reread(f, members[i].value).value;
      var more := read + [Member(members[i].key, v)];
      assert MembersAt(f, text, pos, read) == AfterMember(f, text, SkipSpace(text, after), more);
      if i + 1 == |members| {
        LastMember(f, more, indent, text, after);
        assert more == read + ([Member(members[i].key, v)] + []);
      } else {
        NextMember(f, more, text, after);
        MembersReadBack(f, members, i + 1, indent, text, after + 1, next, more);
        var rest := RereadMembers(f, members, i + 1);
        assert rest.Some? ==> more + rest.value == read + ([Member(members[i].key, v)] + rest.value);
      }
    }
  }

  /** Parsing what was printed gives the reread value, or fails when a number is unreadable. */
  lemma ParseSerialize(f: NumberFormat, v: Value)
    requires Standard(f)
    ensures match Reread(f, v)
            case None => Parse(f, Serialize(f, v)).Failure?
            case Some(w) => Parse(f, Serialize(f, v)) == Success(w)
  {
    var w, text := Write(f, v, 0), Serialize(f, v);
    assert At(text, 0, w + "\n");
    AtSplit(text, 0, w, "\n");
    WriteStarts(f, v, 0);
    SpaceEnds(text, 0, 0);
    ReadsBack(f, v, 0, text, 0);
  }

  lemma {:induction false} RereadElementsEach(f: NumberFormat, elements: seq<Value>, i: nat) returns (r: Option<seq<Value>>)
    requires i <= |elements|
    ensures r == RereadElements(f, elements, i)
    ensures r.Some? <==> forall k :: i <= k < |elements| ==> Reread(f, elements[k]).Some?
    ensures r.Some? ==> |r.value| == |elements| - i
    ensures r.Some? ==> forall k :: i <= k < |elements| ==> Reread(f, elements[k]) == Some(r.value[k - i])
    decreases |elements| - i
  {
    hide Reread;
    r := RereadElements(f, elements, i);
    if i < |elements| {
      var rest := RereadElementsEach(f, elements, i + 1);
    }
  }

  lemma {:induction false} RereadMembersEach(f: NumberFormat, members: seq<Member>, i: nat) returns (r: Option<seq<Member>>)
    requires i <= |members|
    ensures r == RereadMembers(f, members, i)
    ensures r.Some? <==> forall k :: i <= k < |members| ==> Reread(f, members[k].value).Some?
    ensures r.Some? ==> |r.value| == |members| - i
    ensures r.Some? ==> forall k :: i <= k < |members| ==> members[k].key == r.value[k - i].key
    ensures r.Some? ==> forall k :: i <= k < |members| ==> Reread(f, members[k].value) == Some(r.value[k - i].value)
    decreases |members| - i
  {
    hide Reread;
    r := RereadMembers(f, members, i);
    if i < |members| {
      var rest := RereadMembersEach(f, members, i + 1);
    }
  }

  lemma ElementsSame(f: NumberFormat, elements: seq<Value>)
    requires forall i :: 0 <= i < |elements| ==> (Reread(f, elements[i]).Some? <==> AllNumbers(elements[i], Readable(f)))
    requires forall i :: 0 <= i < |elements| ==> (Reread(f, elements[i]) == Some(elements[i]) <==> AllNumbers(elements[i], Unchanged(f)))
    ensures var r := RereadElements(f, elements, 0);
            && (r.Some? <==> AllNumbers(Array(elements), Readable(f)))
            && (r == Some(elements) <==> AllNumbers(Array(elements), Unchanged(f)))
  {
    hide Reread, RereadElements, Readable, Unchanged;
    var r := RereadElementsEach(f, elements, 0);
    if AllNumbers(Array(elements), Unchanged(f)) {
      forall i | 0 <= i < |elements| ensures r.Some? && r.value[i] == elements[i] {
        assert Reread(f, elements[i]) == Some(elements[i]);
      }
      assert elements == [] ==> r == Some([]);
      assert r.value == elements;
    } else {
      var i :| 0 <= i < |elements| && !AllNumbers(elements[i], Unchanged(f));
      assert Reread(f, elements[i]) != Some(elements[i]);
    }
  }

  lemma MembersUnchanged(f: NumberFormat, members: seq<Member>)
    requires forall i :: 0 <= i < |members| ==> (Reread(f, members[i].value) == Some(members[i].value) <==> AllNumbers(members[i].value, Unchanged(f)))
    ensures RereadMembers(f, members, 0) == Some(members) <==> AllNumbers(Object(members), Unchanged(f))
  {
    hide Reread, RereadMembers, Readable, Unchanged;
    var r := RereadMembersEach(f, members, 0);
    if AllNumbers(Object(members), Unchanged(f)) {
      forall i | 0 <= i < |members| ensures r.Some? && r.value[i] == members[i] {
        assert Reread(f, members[i].value) == Some(members[i].value);
      }
      assert members == [] ==> r == Some([]);
      assert r.value == members;
    } else {
      var i :| 0 <= i < |members| && !AllNumbers(members[i].value, Unchanged(f));
      assert Reread(f, members[i].value) != Some(members[i].value);
    }
  }

  lemma MembersSame(f: NumberFormat, members: seq<Member>)
    requires forall i :: 0 <= i < |members| ==> (Reread(f, members[i].value).Some? <==> AllNumbers(members[i].value, Readable(f)))
    requires forall i :: 0 <= i < |members| ==> (Reread(f, members[i].value) == Some(members[i].value) <==> AllNumbers(members[i].value, Unchanged(f)))
    ensures var r := RereadMembers(f, members, 0);
            && (r.Some? <==> AllNumbers(Object(members), Readable(f)))
            && (r == Some(members) <==> AllNumbers(Object(members), Unchanged(f)))
  {
    hide Reread, RereadMembers, Readable, Unchanged;
    MembersUnchanged(f, members);
    var r := RereadMembersEach(f, members, 0);
  }

  /** A value is unchanged exactly when each of its numbers is. */
  lemma {:induction false} RereadSame(f: NumberFormat, v: Value)
    ensures Reread(f, v).Some? <==> AllNumbers(v, Readable(f))
    ensures Reread(f, v) == Some(v) <==> AllNumbers(v, Unchanged(f))
  {
    hide RereadElements, RereadMembers;
    match v {
      case Array(elements) =>
        forall i | 0 <= i < |elements| {
          RereadSame(f, elements[i]);
        }
        ElementsSame(f, elements);
      case Object(members) =>
        forall i | 0 <= i < |members| {
          RereadSame(f, members[i].value);
        }
        MembersSame(f, members);
      case _ =>
    }
  }

  /** The exact condition of the round trip. */
  lemma RoundTrip(f: NumberFormat, v: Value)
    requires Standard(f)
    ensures Parse(f, Serialize(f, v)) == Success(v) <==> AllNumbers(v, Unchanged(f))
    ensures Parse(f, Serialize(f, v)).Success? <==> AllNumbers(v, Readable(f))
  {
    ParseSerialize(f, v);
    RereadSame(f, v);
  }

  lemma {:induction false} AllNumbersWeaken(v: Value, p: Double -> bool, q: Double -> bool)
    requires AllNumbers(v, p) && forall x :: p(x) ==> q(x)
    ensures AllNumbers(v, q)
  {
    match v {
      case Array(elements) =>
        forall i | 0 <= i < |elements| ensures AllNumbers(elements[i], q) {
          AllNumbersWeaken(elements[i], p, q);
        }
      case Object(members) =>
        forall i | 0 <= i < |members| ensures AllNumbers(members[i].value, q) {
          AllNumbersWeaken(members[i].value, p, q);
        }
      case _ =>
    }
  }

  /** Every value without numbers comes back, whatever the number conversions do. */
  lemma NumberFreeRoundTrip(f: NumberFormat, v: Value)
    requires Standard(f) && NumberFree(v)
    ensures Parse(f, Serialize(f, v)) == Success(v)
  {
    AllNumbersWeaken(v, _ => false, Unchanged(f));
    RoundTrip(f, v);
  }

  /** No two values that survive are printed alike. */
  lemma SerializeInjective(f: NumberFormat, v: Value, w: Value)
    requires Standard(f) && Serialize(f, v) == Serialize(f, w)
    requires AllNumbers(v, Unchanged(f)) && AllNumbers(w, Unchanged(f))
    ensures v == w
  {
    RoundTrip(f, v);
    RoundTrip(f, w);
  }

  const ONE: Double := 0x3FF0_0000_0000_0000
  const AFTER_ONE: Double := 0x3FF0_0000_0000_0001

  /** Of the doubles that are printed alike at most one comes back: the one that the text is read as. */
  lemma PrintedAlike(f: NumberFormat, x: Double, y: Double)
    requires Standard(f) && f.show(x) == f.show(y) && RereadNumber(f, x) == Some(y)
    ensures Parse(f, Serialize(f, Number(x))) == Success(Number(y))
    ensures Parse(f, Serialize(f, Number(y))) == Success(Number(y))
  {
    hide Parse, Serialize;
    ParseSerialize(f, Number(x));
    ParseSerialize(f, Number(y));
  }

  /** 1 and the next double have the same six significant digits. The text is read as 1, so the other is lost. */
  lemma SomeNumberIsLost(f: NumberFormat)
    requires Standard(f) && f.show(ONE) == "1" && f.show(AFTER_ONE) == "1" && f.read("1") == Some(ONE)
    ensures Parse(f, Serialize(f, Number(AFTER_ONE))) == Success(Number(ONE)) != Success(Number(AFTER_ONE))
    ensures Parse(f, Serialize(f, Number(ONE))) == Success(Number(ONE))
  {
    hide Parse, Serialize;
    assert IsToken("1");
    PrintedAlike(f, AFTER_ONE, ONE);
  }
}
