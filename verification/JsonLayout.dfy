/** What the parser accepts: exactly the texts that lay out a value, with any white space between the tokens and any
    spelling of the strings. Layouts are defined here without the functions of the parser. */
module JsonLayout {
  import opened Options
  import opened JsonValue
  import opened JsonParser
  import opened JsonRoundTrip
  import opened Sequences

  const LOWER := "0123456789abcdef"
  const UPPER := "0123456789ABCDEF"

  /** The letters of the short escapes, and what they stand for. */
  const LETTERS := "\"\\/bfnrt"
  const MEANINGS: seq<int> := [0x22, 0x5c, 0x2f, 8, 12, 10, 13, 9]

  const NUMBER_CHARS := "0123456789.eE+-"

  /** Space, tab, line feed, vertical tab, form feed and carriage return, in any number. */
  predicate Blank(s: string) {
    forall i :: 0 <= i < |s| ==> s[i] as int in {0x20, 9, 10, 11, 12, 13}
  }

  /** One character of a string literal: as it is, or as a short escape by the place of its letter, or as an escape of
      four hexadecimal digits, each in one of two cases. */
  datatype Piece = Raw(c: char) | Short(k: nat) | Long(digits: seq<Digit>)

  datatype Digit = Digit(n: nat, upper: bool)

  predicate LegalPiece(p: Piece) {
    match p
    case Raw(c) => c != '"' && c != '\\'
    case Short(k) => k < 8
    case Long(digits) => |digits| == 4 && forall i :: 0 <= i < 4 ==> digits[i].n < 16
  }

  function DigitText(d: Digit): char
    requires d.n < 16
  {
    if d.upper then UPPER[d.n] else LOWER[d.n]
  }

  function PieceText(p: Piece): string
    requires LegalPiece(p)
  {
    match p
    case Raw(c) => [c]
    case Short(k) => ['\\', LETTERS[k]]
    case Long(d) => ['\\', 'u', DigitText(d[0]), DigitText(d[1]), DigitText(d[2]), DigitText(d[3])]
  }

  function CodeOf(p: Piece): (c: nat)
    requires LegalPiece(p) && p.Long?
    ensures c <= 0xFFFF
  {
    0x1000 * p.digits[0].n + 0x100 * p.digits[1].n + 0x10 * p.digits[2].n + p.digits[3].n
  }

  function PieceValue(p: Piece): string
    requires LegalPiece(p)
  {
    match p
    case Raw(c) => [c]
    case Short(k) => [MEANINGS[k] as char]
    case Long(_) => Utf8(CodeOf(p))
  }

  predicate LegalPieces(s: seq<Piece>) {
    forall i :: 0 <= i < |s| ==> LegalPiece(s[i])
  }

  function PiecesText(s: seq<Piece>): string
    requires LegalPieces(s)
  {
    if s == [] then "" else PieceText(s[0]) + PiecesText(s[1..])
  }

  function PiecesValue(s: seq<Piece>): string
    requires LegalPieces(s)
  {
    if s == [] then "" else PieceValue(s[0]) + PiecesValue(s[1..])
  }

  function Literal(s: seq<Piece>): string
    requires LegalPieces(s)
  {
    "\"" + (PiecesText(s) + "\"")
  }

  /** A value and how it is laid out. The gap is what stands between the brackets when there is nothing else. */
  datatype Laid =
    | LaidNull
    | LaidBool(b: bool)
    | LaidNumber(token: string, x: Double)
    | LaidString(pieces: seq<Piece>)
    | LaidArray(gap: string, items: seq<LaidItem>)
    | LaidObject(gap: string, members: seq<LaidMember>)

  datatype LaidItem = LaidItem(before: string, value: Laid, after: string)

  datatype LaidMember = LaidMember(before: string, key: seq<Piece>, afterKey: string, beforeValue: string, value: Laid,
                                   after: string)

  predicate IsNumberToken(w: string) {
    w != "" && forall i :: 0 <= i < |w| ==> w[i] in NUMBER_CHARS
  }

  ghost predicate Legal(f: NumberFormat, d: Laid)
    decreases d, 0
  {
    match d
    case LaidNumber(token, x) => IsNumberToken(token) && f.read(token) == Some(x)
    case LaidString(pieces) => LegalPieces(pieces)
    case LaidArray(gap, items) => Blank(gap) && LegalItems(f, items)
    case LaidObject(gap, members) => Blank(gap) && LegalMembers(f, members)
    case _ => true
  }

  ghost predicate LegalItems(f: NumberFormat, items: seq<LaidItem>)
    decreases items, 0
  {
    forall i :: 0 <= i < |items| ==> Blank(items[i].before) && Blank(items[i].after) && Legal(f, items[i].value)
  }

  ghost predicate LegalMembers(f: NumberFormat, members: seq<LaidMember>)
    decreases members, 0
  {
    forall i :: 0 <= i < |members| ==>
      var m := members[i];
      && Blank(m.before) && LegalPieces(m.key) && Blank(m.afterKey) && Blank(m.beforeValue) && Blank(m.after)
      && Legal(f, m.value)
  }

  ghost function Text(f: NumberFormat, d: Laid): string
    requires Legal(f, d)
    decreases d, 0
  {
    match d
    case LaidNull => "null"
    case LaidBool(b) => if b then "true" else "false"
    case LaidNumber(token, _) => token
    case LaidString(pieces) => Literal(pieces)
    case LaidArray(gap, items) => if items == [] then "[" + (gap + "]") else "[" + ItemsText(f, items)
    case LaidObject(gap, members) => if members == [] then "{" + (gap + "}") else "{" + MembersText(f, members)
  }

  /** The items, separated by commas, and the closing bracket. */
  ghost function ItemsText(f: NumberFormat, items: seq<LaidItem>): string
    requires items != [] && LegalItems(f, items)
    decreases items
  {
    items[0].before + (Text(f, items[0].value) + (items[0].after
    + if |items| == 1 then "]" else "," + ItemsText(f, items[1..])))
  }

  ghost function MembersText(f: NumberFormat, members: seq<LaidMember>): string
    requires members != [] && LegalMembers(f, members)
    decreases members
  {
    var m := members[0];
    m.before + (Literal(m.key) + (m.afterKey + (":" + (m.beforeValue + (Text(f, m.value) + (m.after
    + if |members| == 1 then "}" else "," + MembersText(f, members[1..])))))))
  }

  ghost function ValueOf(f: NumberFormat, d: Laid): Value
    requires Legal(f, d)
    decreases d, 0
  {
    match d
    case LaidNull => Null
    case LaidBool(b) => Bool(b)
    case LaidNumber(_, x) => Number(x)
    case LaidString(pieces) => String(PiecesValue(pieces))
    case LaidArray(_, items) => Array(ItemValues(f, items))
    case LaidObject(_, members) => Object(MemberValues(f, members))
  }

  ghost function ItemValues(f: NumberFormat, items: seq<LaidItem>): seq<Value>
    requires LegalItems(f, items)
    decreases items
  {
    if items == [] then [] else [ValueOf(f, items[0].value)] + ItemValues(f, items[1..])
  }

  ghost function MemberValues(f: NumberFormat, members: seq<LaidMember>): seq<Member>
    requires LegalMembers(f, members)
    decreases members
  {
    if members == [] then []
    else [Member(PiecesValue(members[0].key), ValueOf(f, members[0].value))] + MemberValues(f, members[1..])
  }

  // What is laid out is read.

  /** pos is the end of the text, or what stands there is no white space. */
  predicate NoSpaceAt(text: string, pos: nat) {
    pos <= |text| && (pos < |text| ==> !IsSpace(text[pos]))
  }

  /** pos is the end of the text, or what stands there does not continue a number. */
  predicate NoNumberAt(text: string, pos: nat) {
    pos <= |text| && (pos < |text| ==> text[pos] !in NUMBER_CHARS)
  }

  lemma BlankSkipped(text: string, pos: nat, gap: string)
    requires At(text, pos, gap) && Blank(gap) && NoSpaceAt(text, pos + |gap|)
    ensures SkipSpace(text, pos) == pos + |gap|
  {
    forall k | pos <= k < pos + |gap| ensures IsSpace(text[k]) {
      AtChar(text, pos, gap, k - pos);
    }
  }

  /** White space before a token, the token and what follows it. */
  lemma TokenFound(text: string, pos: nat, gap: string, token: string, rest: string) returns (start: nat)
    requires Blank(gap) && At(text, pos, gap + (token + rest)) && token != "" && !IsSpace(token[0])
    ensures start == pos + |gap| < |text| && SkipSpace(text, pos) == start == SkipSpace(text, start)
    ensures text[start] == token[0] && At(text, start, token) && At(text, start + |token|, rest)
  {
    hide SkipSpace, IsSpace;
    start := pos + |gap|;
    AtSplit(text, pos, gap, token + rest);
    AtSplit(text, start, token, rest);
    BlankSkipped(text, pos, gap);
    assert At(text, start, "");
    BlankSkipped(text, start, "");
  }

  lemma NumberChars(c: char)
    ensures IsNumberChar(c) <==> c in NUMBER_CHARS
  {
    var k := if '0' <= c <= '9' then c as int - '0' as int else 10;
    assert NUMBER_CHARS[10] == '.' && NUMBER_CHARS[11] == 'e' && NUMBER_CHARS[12] == 'E' && NUMBER_CHARS[13] == '+'
           && NUMBER_CHARS[14] == '-';
    assert '0' <= c <= '9' ==> NUMBER_CHARS[k] == c;
  }

  lemma DigitReads(d: Digit)
    requires d.n < 16
    ensures HexDigit(DigitText(d)) == Some(d.n)
  {
  }

  lemma LongReads(text: string, pos: nat, p: Piece)
    requires LegalPiece(p) && p.Long? && At(text, pos, PieceText(p))
    ensures CodePoint(text, pos + 2, 4) == Some(CodeOf(p))
  {
    hide DigitText, HexDigit;
    forall i | 0 <= i < 4 ensures HexDigit(text[pos + 2 + i]) == Some(p.digits[i].n) {
      AtChar(text, pos, PieceText(p), 2 + i);
      DigitReads(p.digits[i]);
    }
    assert CodePoint(text, pos + 2, 1) == Some(p.digits[0].n);
    assert CodePoint(text, pos + 2, 2) == Some(p.digits[0].n * 16 + p.digits[1].n);
    assert CodePoint(text, pos + 2, 3) == Some((p.digits[0].n * 16 + p.digits[1].n) * 16 + p.digits[2].n);
  }

  lemma ShortReads(k: nat)
    requires k < 8
    ensures LETTERS[k] != 'u' && Unescape(LETTERS[k]) == Some(MEANINGS[k] as char)
  {
  }

  lemma PieceReads(text: string, pos: nat, p: Piece, read: string)
    requires LegalPiece(p) && At(text, pos, PieceText(p))
    ensures CharsAt(text, pos, read) == CharsAt(text, pos + |PieceText(p)|, read + PieceValue(p))
  {
    hide DigitText, Unescape, CodePoint, Utf8;
    AtChar(text, pos, PieceText(p), 0);
    match p {
      case Raw(_) =>
      case Short(k) =>
        AtChar(text, pos, PieceText(p), 1);
        ShortReads(k);
      case Long(_) =>
        AtChar(text, pos, PieceText(p), 1);
        LongReads(text, pos, p);
    }
  }

  lemma {:induction false} PiecesRead(text: string, pos: nat, s: seq<Piece>, read: string)
    requires LegalPieces(s) && At(text, pos, PiecesText(s) + "\"")
    ensures CharsAt(text, pos, read) == Ok(read + PiecesValue(s), pos + |PiecesText(s)| + 1)
    decreases |s|
  {
    hide CharsAt, At, PieceText, PieceValue;
    if s == [] {
      assert PiecesText(s) + "\"" == "\"" && read + PiecesValue(s) == read;
      ClosingQuote(text, pos, read);
    } else {
      var first := PieceText(s[0]);
      Regroup(first, PiecesText(s[1..]), "\"");
      AtSplit(text, pos, first, PiecesText(s[1..]) + "\"");
      PieceReads(text, pos, s[0], read);
      PiecesRead(text, pos + |first|, s[1..], read + PieceValue(s[0]));
      Regroup(read, PieceValue(s[0]), PiecesValue(s[1..]));
    }
  }

  lemma LiteralReads(text: string, pos: nat, s: seq<Piece>)
    requires LegalPieces(s) && At(text, pos, Literal(s))
    ensures StringAt(text, pos) == Ok(PiecesValue(s), pos + |Literal(s)|)
  {
    hide CharsAt, PiecesText, PiecesValue;
    AtSplit(text, pos, "\"", PiecesText(s) + "\"");
    PiecesRead(text, pos + 1, s, "");
    assert "" + PiecesValue(s) == PiecesValue(s);
  }

  lemma TokenReads(f: NumberFormat, text: string, pos: nat, token: string, x: Double)
    requires IsNumberToken(token) && f.read(token) == Some(x)
    requires At(text, pos, token) && NoNumberAt(text, pos + |token|)
    ensures ValueAt(f, text, pos) == Ok(Number(x), pos + |token|)
  {
    var end := pos + |token|;
    forall k | pos <= k < end ensures IsNumberChar(text[k]) {
      AtChar(text, pos, token, k - pos);
      NumberChars(token[k - pos]);
    }
    if end < |text| {
      NumberChars(text[end]);
    }
    assert SkipNumber(text, pos) == end;
  }

  lemma NullReads(f: NumberFormat, text: string, pos: nat)
    requires At(text, pos, "null")
    ensures ValueAt(f, text, pos) == Ok(Null, pos + 4)
  {
    AtChar(text, pos, "null", 0);
  }

  lemma BoolReads(f: NumberFormat, b: bool, text: string, pos: nat)
    requires At(text, pos, if b then "true" else "false")
    ensures ValueAt(f, text, pos) == Ok(Bool(b), pos + if b then 4 else 5)
  {
    AtChar(text, pos, if b then "true" else "false", 0);
  }

  lemma StringReads(f: NumberFormat, s: seq<Piece>, text: string, pos: nat)
    requires LegalPieces(s) && At(text, pos, Literal(s))
    ensures ValueAt(f, text, pos) == Ok(String(PiecesValue(s)), pos + |Literal(s)|)
  {
    hide PiecesText, PiecesValue, StringAt;
    LiteralReads(text, pos, s);
    AtChar(text, pos, Literal(s), 0);
  }

  /** The first character of a value: no white space, and nothing that ends an array or an object. */
  predicate StartsValue(s: string) {
    s != "" && !IsSpace(s[0]) && s[0] != ']' && s[0] != '}'
  }

  lemma TextStarts(f: NumberFormat, d: Laid)
    requires Legal(f, d)
    ensures StartsValue(Text(f, d))
  {
    hide ItemsText, MembersText, PiecesText, LegalItems, LegalMembers, LegalPieces;
    if d.LaidNumber? {
      NumberChars(d.token[0]);
    }
  }

  /** Wherever a value is laid out, it is read, up to its end. A number must not be continued by what follows. */
  lemma {:induction false} LaidReads(f: NumberFormat, d: Laid, text: string, pos: nat)
    requires Legal(f, d) && At(text, pos, Text(f, d))
    requires d.LaidNumber? ==> NoNumberAt(text, pos + |Text(f, d)|)
    ensures ValueAt(f, text, pos) == Ok(ValueOf(f, d), pos + |Text(f, d)|)
    decreases d, 0
  {
    hide ValueAt, ItemsText, MembersText, ItemValues, MemberValues, At;
    match d {
      case LaidNull => NullReads(f, text, pos);
      case LaidBool(b) => BoolReads(f, b, text, pos);
      case LaidNumber(token, x) => TokenReads(f, text, pos, token, x);
      case LaidString(pieces) => StringReads(f, pieces, text, pos);
      case LaidArray(gap, items) => ArrayReads(f, gap, items, text, pos);
      case LaidObject(gap, members) => ObjectReads(f, gap, members, text, pos);
    }
  }

  lemma {:induction false} ArrayReads(f: NumberFormat, gap: string, items: seq<LaidItem>, text: string, pos: nat)
    requires Legal(f, LaidArray(gap, items)) && At(text, pos, Text(f, LaidArray(gap, items)))
    ensures ValueAt(f, text, pos) == Ok(Array(ItemValues(f, items)), pos + |Text(f, LaidArray(gap, items))|)
    decreases items, |items| + 1
  {
    hide ElementsAt, ValueAt, SkipSpace, ItemsText;
    if items == [] {
      AtSplit(text, pos, "[", gap + "]");
      AtSplit(text, pos + 1, gap, "]");
      BlankSkipped(text, pos + 1, gap);
      EnterArray(f, text, pos);
    } else {
      AtSplit(text, pos, "[", ItemsText(f, items));
      var start := ItemStart(f, items, text, pos + 1);
      EnterArray(f, text, pos);
      ItemsRead(f, items, text, start, pos + 1, []);
      assert [] + ItemValues(f, items) == ItemValues(f, items);
    }
  }

  ghost function AfterItem(f: NumberFormat, items: seq<LaidItem>): string
    requires items != [] && LegalItems(f, items)
  {
    items[0].after + if |items| == 1 then "]" else "," + ItemsText(f, items[1..])
  }

  /** Where the value of the first item begins. */
  lemma ItemStart(f: NumberFormat, items: seq<LaidItem>, text: string, line: nat) returns (start: nat)
    requires items != [] && LegalItems(f, items) && At(text, line, ItemsText(f, items))
    ensures start == line + |items[0].before| < |text|
    ensures SkipSpace(text, line) == start == SkipSpace(text, start)
    ensures text[start] != ']'
    ensures At(text, start, Text(f, items[0].value))
    ensures At(text, start + |Text(f, items[0].value)|, AfterItem(f, items))
    ensures |ItemsText(f, items)| == |items[0].before| + |Text(f, items[0].value)| + |AfterItem(f, items)|
  {
    hide SkipSpace, Text, Legal, IsSpace, At;
    var i := items[0];
    assert ItemsText(f, items) == i.before + (Text(f, i.value) + AfterItem(f, items));
    TextStarts(f, i.value);
    start := TokenFound(text, line, i.before, Text(f, i.value), AfterItem(f, items));
  }

  /** What stands behind a value: white space, and then a separator or a bracket. */
  lemma ValueEnds(text: string, pos: nat, gap: string, c: char, rest: string)
    requires Blank(gap) && At(text, pos, gap + ([c] + rest)) && c in ",]}"
    ensures NoNumberAt(text, pos) && SkipSpace(text, pos) == pos + |gap| < |text| && text[pos + |gap|] == c
    ensures At(text, pos + |gap| + 1, rest)
  {
    AtSplit(text, pos, gap, [c] + rest);
    AtSplit(text, pos + |gap|, [c], rest);
    if gap != "" {
      assert text[pos] == gap[0];
    }
    BlankSkipped(text, pos, gap);
  }

  /** The comma or bracket behind the first item. */
  lemma ItemEnd(f: NumberFormat, items: seq<LaidItem>, text: string, after: nat) returns (next: nat)
    requires items != [] && LegalItems(f, items) && At(text, after, AfterItem(f, items))
    ensures NoNumberAt(text, after) && next == SkipSpace(text, after) < |text|
    ensures text[next] == if |items| == 1 then ']' else ','
    ensures |items| > 1 ==> At(text, next + 1, ItemsText(f, items[1..]))
    ensures after + |AfterItem(f, items)| == next + 1 + if |items| == 1 then 0 else |ItemsText(f, items[1..])|
  {
    hide SkipSpace, NoNumberAt, Legal, ItemsText, At;
    next := after + |items[0].after|;
    var c, rest := if |items| == 1 then ']' else ',', if |items| == 1 then "" else ItemsText(f, items[1..]);
    assert AfterItem(f, items) == items[0].after + ([c] + rest);
    ValueEnds(text, after, items[0].after, c, rest);
  }

  lemma {:induction false} ItemsRead(f: NumberFormat, items: seq<LaidItem>, text: string, pos: nat, line: nat,
                                     read: seq<Value>)
    requires items != [] && LegalItems(f, items) && At(text, line, ItemsText(f, items))
    requires pos <= |text| && SkipSpace(text, pos) == SkipSpace(text, line)
    ensures ElementsAt(f, text, pos, read) == Ok(Array(read + ItemValues(f, items)), line + |ItemsText(f, items)|)
    decreases items, |items|
  {
    hide SkipSpace, Text, ValueAt, ValueOf, At, Legal, AfterItem, ItemsText, NoNumberAt;
    var i := items[0];
    var start := ItemStart(f, items, text, line);
    var after := start + |Text(f, i.value)|;
    var next := ItemEnd(f, items, text, after);
    LaidReads(f, i.value, text, start);
    var more := read + [ValueOf(f, i.value)];
    assert ElementsAt(f, text, pos, read) == AfterElement(f, text, next, more);
    if |items| == 1 {
      assert more == read + ItemValues(f, items);
    } else {
      ItemsRead(f, items[1..], text, next + 1, next + 1, more);
      Regroup(read, [ValueOf(f, i.value)], ItemValues(f, items[1..]));
    }
  }

  lemma {:induction false} ObjectReads(f: NumberFormat, gap: string, members: seq<LaidMember>, text: string, pos: nat)
    requires Legal(f, LaidObject(gap, members)) && At(text, pos, Text(f, LaidObject(gap, members)))
    ensures ValueAt(f, text, pos) == Ok(Object(MemberValues(f, members)), pos + |Text(f, LaidObject(gap, members))|)
    decreases members, |members| + 1
  {
    hide MembersAt, ValueAt, SkipSpace, MembersText;
    if members == [] {
      AtSplit(text, pos, "{", gap + "}");
      AtSplit(text, pos + 1, gap, "}");
      BlankSkipped(text, pos + 1, gap);
      EnterObject(f, text, pos);
    } else {
      AtSplit(text, pos, "{", MembersText(f, members));
      var start := KeyStart(f, members, text, pos + 1);
      EnterObject(f, text, pos);
      MembersRead(f, members, text, start, pos + 1, []);
      assert [] + MemberValues(f, members) == MemberValues(f, members);
    }
  }

  ghost function AfterText(f: NumberFormat, members: seq<LaidMember>): string
    requires members != [] && LegalMembers(f, members)
  {
    members[0].after + if |members| == 1 then "}" else "," + MembersText(f, members[1..])
  }

  ghost function ColonText(f: NumberFormat, members: seq<LaidMember>): string
    requires members != [] && LegalMembers(f, members)
  {
    var m := members[0];
    m.afterKey + (":" + (m.beforeValue + (Text(f, m.value) + AfterText(f, members))))
  }

  /** Where the key of the first member begins. */
  lemma KeyStart(f: NumberFormat, members: seq<LaidMember>, text: string, line: nat) returns (start: nat)
    requires members != [] && LegalMembers(f, members) && At(text, line, MembersText(f, members))
    ensures start == line + |members[0].before| < |text|
    ensures SkipSpace(text, line) == start == SkipSpace(text, start)
    ensures text[start] == '"'
    ensures At(text, start, Literal(members[0].key))
    ensures At(text, start + |Literal(members[0].key)|, ColonText(f, members))
    ensures |MembersText(f, members)| == |members[0].before| + |Literal(members[0].key)| + |ColonText(f, members)|
  {
    hide SkipSpace, Text, PiecesText, LegalPieces, Legal, At;
    var m := members[0];
    assert MembersText(f, members) == m.before + (Literal(m.key) + ColonText(f, members));
    start := TokenFound(text, line, m.before, Literal(m.key), ColonText(f, members));
  }

  /** The colon after the key, and where the value of the first member begins. */
  lemma ColonStart(f: NumberFormat, members: seq<LaidMember>, text: string, pos: nat) returns (colon: nat, start: nat)
    requires members != [] && LegalMembers(f, members) && At(text, pos, ColonText(f, members))
    ensures colon == pos + |members[0].afterKey| == SkipSpace(text, pos) < |text| && text[colon] == ':'
    ensures start == SkipSpace(text, colon + 1) <= |text|
    ensures At(text, start, Text(f, members[0].value))
    ensures At(text, start + |Text(f, members[0].value)|, AfterText(f, members))
    ensures pos + |ColonText(f, members)| == start + |Text(f, members[0].value)| + |AfterText(f, members)|
  {
    hide SkipSpace, Text, AfterText, Legal, LegalPieces, At;
    var m := members[0];
    var rest := Text(f, m.value) + AfterText(f, members);
    colon := TokenFound(text, pos, m.afterKey, ":", m.beforeValue + rest);
    TextStarts(f, m.value);
    start := TokenFound(text, colon + 1, m.beforeValue, Text(f, m.value), AfterText(f, members));
  }

  /** The comma or brace behind the first member. */
  lemma MemberEnd(f: NumberFormat, members: seq<LaidMember>, text: string, after: nat) returns (next: nat)
    requires members != [] && LegalMembers(f, members) && At(text, after, AfterText(f, members))
    ensures NoNumberAt(text, after) && next == SkipSpace(text, after) < |text|
    ensures text[next] == if |members| == 1 then '}' else ','
    ensures |members| > 1 ==> At(text, next + 1, MembersText(f, members[1..]))
    ensures after + |AfterText(f, members)| == next + 1 + if |members| == 1 then 0 else |MembersText(f, members[1..])|
  {
    hide SkipSpace, NoNumberAt, Legal, MembersText, At;
    next := after + |members[0].after|;
    var c, rest := if |members| == 1 then '}' else ',', if |members| == 1 then "" else MembersText(f, members[1..]);
    assert AfterText(f, members) == members[0].after + ([c] + rest);
    ValueEnds(text, after, members[0].after, c, rest);
  }

  /** The first member, up to the end of its value. */
  lemma {:induction false} MemberReads(f: NumberFormat, members: seq<LaidMember>, text: string, pos: nat, line: nat)
    returns (after: nat)
    requires members != [] && LegalMembers(f, members) && At(text, line, MembersText(f, members))
    requires pos <= |text| && SkipSpace(text, pos) == SkipSpace(text, line)
    ensures MemberAt(f, text, pos) == Ok(Member(PiecesValue(members[0].key), ValueOf(f, members[0].value)), after)
    ensures At(text, after, AfterText(f, members))
    ensures line + |MembersText(f, members)| == after + |AfterText(f, members)|
    decreases members, |members|, 0
  {
    hide SkipSpace, Text, ValueAt, ValueOf, At, Legal, StringAt, Literal, ColonText, AfterText, PiecesValue, LegalPieces;
    hide MembersText, NoNumberAt;
    var m := members[0];
    var start := KeyStart(f, members, text, line);
    LiteralReads(text, start, m.key);
    var colon, value := ColonStart(f, members, text, start + |Literal(m.key)|);
    after := value + |Text(f, m.value)|;
    var next := MemberEnd(f, members, text, after);
    LaidReads(f, m.value, text, value);
  }

  lemma {:induction false} MembersRead(f: NumberFormat, members: seq<LaidMember>, text: string, pos: nat, line: nat,
                                       read: seq<Member>)
    requires members != [] && LegalMembers(f, members) && At(text, line, MembersText(f, members))
    requires pos <= |text| && SkipSpace(text, pos) == SkipSpace(text, line)
    ensures MembersAt(f, text, pos, read) == Ok(Object(read + MemberValues(f, members)), line + |MembersText(f, members)|)
    decreases members, |members|, 1
  {
    hide SkipSpace, Text, ValueOf, At, Legal, PiecesValue, LegalPieces, AfterText, MembersText, MemberAt, NoNumberAt;
    var member := Member(PiecesValue(members[0].key), ValueOf(f, members[0].value));
    var after := MemberReads(f, members, text, pos, line);
    var next := MemberEnd(f, members, text, after);
    var more := read + [member];
    assert MembersAt(f, text, pos, read) == AfterMember(f, text, next, more);
    if |members| == 1 {
      assert more == read + MemberValues(f, members);
    } else {
      MembersRead(f, members[1..], text, next + 1, next + 1, more);
      Regroup(read, [member], MemberValues(f, members[1..]));
    }
  }

  // What is read is laid out.

  lemma AtJoin(text: string, pos: nat, a: string, b: string)
    requires At(text, pos, a) && At(text, pos + |a|, b)
    ensures At(text, pos, a + b)
  {
    assert text[pos..pos + |a + b|] == text[pos..pos + |a|] + text[pos + |a|..pos + |a| + |b|];
  }

  lemma BlankFound(text: string, pos: nat) returns (gap: string)
    requires pos <= |text|
    ensures Blank(gap) && At(text, pos, gap) && pos + |gap| == SkipSpace(text, pos)
  {
    gap := text[pos..SkipSpace(text, pos)];
  }

  lemma DigitFound(c: char) returns (d: Digit)
    requires HexDigit(c).Some?
    ensures d.n == HexDigit(c).value < 16 && DigitText(d) == c
  {
    d := Digit(HexDigit(c).value, 'A' <= c <= 'F');
  }

  lemma {:induction false} CodePointDigit(text: string, pos: nat, n: nat, i: nat)
    requires i < n <= 4 && pos + n <= |text| && CodePoint(text, pos, n).Some?
    ensures HexDigit(text[pos + i]).Some?
  {
    hide HexDigit;
    if i < n - 1 { CodePointDigit(text, pos, n - 1, i); }
  }

  lemma LongFound(text: string, pos: nat) returns (p: Piece)
    requires pos + 6 <= |text| && text[pos] == '\\' && text[pos + 1] == 'u' && CodePoint(text, pos + 2, 4).Some?
    ensures LegalPiece(p) && At(text, pos, PieceText(p))
  {
    hide CodePoint, HexDigit, DigitText;
    CodePointDigit(text, pos + 2, 4, 0);
    CodePointDigit(text, pos + 2, 4, 1);
    CodePointDigit(text, pos + 2, 4, 2);
    CodePointDigit(text, pos + 2, 4, 3);
    var d0 := DigitFound(text[pos + 2]);
    var d1 := DigitFound(text[pos + 3]);
    var d2 := DigitFound(text[pos + 4]);
    var d3 := DigitFound(text[pos + 5]);
    p := Long([d0, d1, d2, d3]);
  }

  lemma ShortFound(c: char) returns (k: nat)
    requires Unescape(c).Some?
    ensures k < 8 && LETTERS[k] == c
  {
    k := match c
      case '"' => 0
      case '\\' => 1
      case '/' => 2
      case 'b' => 3
      case 'f' => 4
      case 'n' => 5
      case 'r' => 6
      case _ => 7;
  }

  lemma PieceFound(text: string, pos: nat, read: string) returns (p: Piece)
    requires pos < |text| && text[pos] != '"' && CharsAt(text, pos, read).Ok?
    ensures LegalPiece(p) && At(text, pos, PieceText(p))
  {
    hide CodePoint, Unescape, Utf8, HexDigit, DigitText;
    if text[pos] != '\\' {
      p := Raw(text[pos]);
    } else if text[pos + 1] == 'u' {
      p := LongFound(text, pos);
    } else {
      var k := ShortFound(text[pos + 1]);
      p := Short(k);
    }
  }

  lemma {:induction false} PiecesFound(text: string, pos: nat, read: string) returns (s: seq<Piece>)
    requires pos <= |text| && CharsAt(text, pos, read).Ok?
    ensures LegalPieces(s) && At(text, pos, PiecesText(s) + "\"")
    decreases |text| - pos
  {
    if text[pos] == '"' {
      s := [];
      assert PiecesText(s) + "\"" == "\"";
    } else {
      var p := PieceFound(text, pos, read);
      PieceReads(text, pos, p, read);
      var rest := PiecesFound(text, pos + |PieceText(p)|, read + PieceValue(p));
      AtJoin(text, pos, PieceText(p), PiecesText(rest) + "\"");
      Regroup(PieceText(p), PiecesText(rest), "\"");
      s := [p] + rest;
      assert s[1..] == rest;
    }
  }

  lemma LiteralFound(text: string, pos: nat) returns (s: seq<Piece>)
    requires pos <= |text| && StringAt(text, pos).Ok?
    ensures LegalPieces(s) && At(text, pos, Literal(s))
  {
    s := PiecesFound(text, pos + 1, "");
    assert At(text, pos, "\"");
    AtJoin(text, pos, "\"", PiecesText(s) + "\"");
  }

  lemma TokenFoundAt(f: NumberFormat, text: string, pos: nat) returns (d: Laid)
    requires pos <= |text| && NumberAt(f, text, pos).Ok?
    ensures d.LaidNumber? && Legal(f, d) && At(text, pos, Text(f, d)) && NoNumberAt(text, pos + |Text(f, d)|)
  {
    var end := SkipNumber(text, pos);
    var token := text[pos..end];
    forall i | 0 <= i < |token| ensures token[i] in NUMBER_CHARS {
      assert token[i] == text[pos + i];
      NumberChars(token[i]);
    }
    if end < |text| {
      NumberChars(text[end]);
    }
    d := LaidNumber(token, f.read(token).value);
  }

  /** Wherever the parser reads a value, one is laid out. */
  lemma {:induction false} LaidFound(f: NumberFormat, text: string, pos: nat) returns (d: Laid)
    requires pos <= |text| && ValueAt(f, text, pos).Ok?
    ensures Legal(f, d) && At(text, pos, Text(f, d))
    ensures d.LaidNumber? ==> NoNumberAt(text, pos + |Text(f, d)|)
    decreases |text| - pos, 0
  {
    hide SkipSpace, ElementsAt, MembersAt, NumberAt, StringAt, At;
    match text[pos] {
      case '{' => d := ObjectFound(f, text, pos);
      case '[' => d := ArrayFound(f, text, pos);
      case '"' =>
        var s := LiteralFound(text, pos);
        d := LaidString(s);
      case 't' => d := LaidBool(At(text, pos, "true"));
      case 'f' => d := LaidBool(At(text, pos, "true"));
      case 'n' => d := LaidNull;
      case _ => d := TokenFoundAt(f, text, pos);
    }
  }

  lemma {:induction false} ArrayFound(f: NumberFormat, text: string, pos: nat) returns (d: Laid)
    requires pos < |text| && text[pos] == '[' && ValueAt(f, text, pos).Ok?
    ensures d.LaidArray? && Legal(f, d) && At(text, pos, Text(f, d))
    decreases |text| - pos, 0, 0
  {
    hide SkipSpace, ElementsAt, ValueAt, ItemsText;
    EnterArray(f, text, pos);
    assert At(text, pos, "[");
    var start := SkipSpace(text, pos + 1);
    if start < |text| && text[start] == ']' {
      var gap := BlankFound(text, pos + 1);
      AtJoin(text, pos + 1, gap, "]");
      AtJoin(text, pos, "[", gap + "]");
      d := LaidArray(gap, []);
    } else {
      SkipTwice(text, pos + 1);
      ElementsSkip(f, text, pos + 1, start, []);
      var items := ItemsFound(f, text, pos + 1, []);
      AtJoin(text, pos, "[", ItemsText(f, items));
      d := LaidArray("", items);
    }
  }

  lemma SkipTwice(text: string, pos: nat)
    requires pos <= |text|
    ensures SkipSpace(text, SkipSpace(text, pos)) == SkipSpace(text, pos)
  {
  }

  lemma ElementsSkip(f: NumberFormat, text: string, pos: nat, start: nat, read: seq<Value>)
    requires pos <= |text| && start <= |text| && SkipSpace(text, pos) == SkipSpace(text, start)
    ensures ElementsAt(f, text, pos, read) == ElementsAt(f, text, start, read)
  {
    hide SkipSpace, ValueAt, AfterElement;
  }

  lemma ItemJoined(f: NumberFormat, i: LaidItem, rest: seq<LaidItem>, text: string, pos: nat, end: nat)
    requires Blank(i.before) && Legal(f, i.value) && Blank(i.after) && LegalItems(f, rest)
    requires At(text, pos, i.before) && At(text, pos + |i.before|, Text(f, i.value))
    requires At(text, pos + |i.before| + |Text(f, i.value)|, i.after)
    requires end == pos + |i.before| + |Text(f, i.value)| + |i.after|
    requires At(text, end, if rest == [] then "]" else ",")
    requires rest != [] ==> At(text, end + 1, ItemsText(f, rest))
    ensures LegalItems(f, [i] + rest) && At(text, pos, ItemsText(f, [i] + rest))
  {
    hide At, Text, Legal;
    var tail := if rest == [] then "]" else "," + ItemsText(f, rest);
    if rest != [] {
      AtJoin(text, end, ",", ItemsText(f, rest));
    }
    AtJoin(text, end - |i.after|, i.after, tail);
    AtJoin(text, pos + |i.before|, Text(f, i.value), i.after + tail);
    AtJoin(text, pos, i.before, Text(f, i.value) + (i.after + tail));
    assert ([i] + rest)[1..] == rest;
  }

  lemma {:induction false} ItemsFound(f: NumberFormat, text: string, pos: nat, read: seq<Value>)
    returns (items: seq<LaidItem>)
    requires pos <= |text| && ElementsAt(f, text, pos, read).Ok?
    ensures items != [] && LegalItems(f, items) && At(text, pos, ItemsText(f, items))
    decreases |text| - pos, 1
  {
    hide SkipSpace, ValueAt, At, Text, Legal, ValueOf, NoNumberAt, ItemsText;
    var before := BlankFound(text, pos);
    var start := pos + |before|;
    var d := LaidFound(f, text, start);
    LaidReads(f, d, text, start);
    var next := start + |Text(f, d)|;
    var after := BlankFound(text, next);
    var end := next + |after|;
    var rest := [];
    assert AfterElement(f, text, end, read + [ValueOf(f, d)]).Ok?;
    CharAt(text, end);
    if text[end] == ',' {
      rest := ItemsFound(f, text, end + 1, read + [ValueOf(f, d)]);
    }
    ItemJoined(f, LaidItem(before, d, after), rest, text, pos, end);
    items := [LaidItem(before, d, after)] + rest;
  }

  lemma CharAt(text: string, pos: nat)
    requires pos < |text|
    ensures At(text, pos, [text[pos]])
  {
  }

  lemma {:induction false} ObjectFound(f: NumberFormat, text: string, pos: nat) returns (d: Laid)
    requires pos < |text| && text[pos] == '{' && ValueAt(f, text, pos).Ok?
    ensures d.LaidObject? && Legal(f, d) && At(text, pos, Text(f, d))
    decreases |text| - pos, 0, 0
  {
    hide SkipSpace, MembersAt, ValueAt, MembersText;
    EnterObject(f, text, pos);
    assert At(text, pos, "{");
    var start := SkipSpace(text, pos + 1);
    if start < |text| && text[start] == '}' {
      var gap := BlankFound(text, pos + 1);
      AtJoin(text, pos + 1, gap, "}");
      AtJoin(text, pos, "{", gap + "}");
      d := LaidObject(gap, []);
    } else {
      SkipTwice(text, pos + 1);
      MembersSkip(f, text, pos + 1, start, []);
      var members := MembersFound(f, text, pos + 1, []);
      AtJoin(text, pos, "{", MembersText(f, members));
      d := LaidObject("", members);
    }
  }

  lemma MembersSkip(f: NumberFormat, text: string, pos: nat, start: nat, read: seq<Member>)
    requires pos <= |text| && start <= |text| && SkipSpace(text, pos) == SkipSpace(text, start)
    ensures MembersAt(f, text, pos, read) == MembersAt(f, text, start, read)
  {
    hide SkipSpace, ValueAt, StringAt, AfterMember;
  }

  /** The text of one member, without what follows it. */
  ghost function MemberText(f: NumberFormat, m: LaidMember): string
    requires LegalPieces(m.key) && Legal(f, m.value)
  {
    m.before + (Literal(m.key) + (m.afterKey + (":" + (m.beforeValue + (Text(f, m.value) + m.after)))))
  }

  lemma MembersUnfold(f: NumberFormat, m: LaidMember, rest: seq<LaidMember>)
    requires LegalMembers(f, [m]) && LegalMembers(f, rest)
    ensures LegalMembers(f, [m] + rest)
    ensures LegalPieces(m.key) && Legal(f, m.value)
    ensures MembersText(f, [m] + rest)
            == MemberText(f, m) + if rest == [] then "}" else "," + MembersText(f, rest)
  {
    hide Text, Legal, Literal, LegalPieces;
    assert LegalPieces([m][0].key) && Legal(f, [m][0].value);
    assert ([m] + rest)[1..] == rest;
  }

  lemma MemberJoined(f: NumberFormat, m: LaidMember, text: string, pos: nat, colon: nat, value: nat)
    requires LegalMembers(f, [m]) && LegalPieces(m.key) && Legal(f, m.value)
    requires At(text, pos, m.before) && At(text, pos + |m.before|, Literal(m.key))
    requires At(text, pos + |m.before| + |Literal(m.key)|, m.afterKey) && At(text, colon, ":") && At(text, colon + 1, m.beforeValue)
    requires colon == pos + |m.before| + |Literal(m.key)| + |m.afterKey| && value == colon + 1 + |m.beforeValue|
    requires At(text, value, Text(f, m.value)) && At(text, value + |Text(f, m.value)|, m.after)
    ensures At(text, pos, MemberText(f, m))
    ensures |MemberText(f, m)| == value + |Text(f, m.value)| + |m.after| - pos
  {
    hide At, Text, Legal, Literal, LegalPieces;
    var s1 := Text(f, m.value) + m.after;
    AtJoin(text, value, Text(f, m.value), m.after);
    AtJoin(text, colon + 1, m.beforeValue, s1);
    AtJoin(text, colon, ":", m.beforeValue + s1);
    AtJoin(text, colon - |m.afterKey|, m.afterKey, ":" + (m.beforeValue + s1));
    var s2 := m.afterKey + (":" + (m.beforeValue + s1));
    AtJoin(text, pos + |m.before|, Literal(m.key), s2);
    AtJoin(text, pos, m.before, Literal(m.key) + s2);
  }

  /** The steps of a member that was read. */
  lemma MemberSteps(f: NumberFormat, text: string, pos: nat) returns (start: nat, colon: nat, value: nat)
    requires pos <= |text| && MemberAt(f, text, pos).Ok?
    ensures start == SkipSpace(text, pos) <= |text| && StringAt(text, start).Ok?
    ensures colon == SkipSpace(text, StringAt(text, start).next) < |text| && text[colon] == ':'
    ensures value == SkipSpace(text, colon + 1) <= |text| && ValueAt(f, text, value).Ok?
    ensures MemberAt(f, text, pos).next == ValueAt(f, text, value).next <= |text|
  {
    hide SkipSpace, ValueAt, StringAt;
    start := SkipSpace(text, pos);
    colon := SkipSpace(text, StringAt(text, start).next);
    value := SkipSpace(text, colon + 1);
  }

  /** The first member that the parser reads, with the white space around it. */
  lemma {:induction false} MemberFound(f: NumberFormat, text: string, pos: nat) returns (m: LaidMember)
    requires pos <= |text| && MemberAt(f, text, pos).Ok?
    ensures LegalMembers(f, [m]) && LegalPieces(m.key) && Legal(f, m.value)
    ensures At(text, pos, MemberText(f, m))
    ensures MemberAt(f, text, pos).next <= |text|
    ensures pos + |MemberText(f, m)| == SkipSpace(text, MemberAt(f, text, pos).next)
    decreases |text| - pos, 1
  {
    hide SkipSpace, ValueAt, At, Text, Legal, ValueOf, NoNumberAt, StringAt, Literal, LegalPieces, MemberText, MemberAt;
    var start, colon, value := MemberSteps(f, text, pos);
    var before := BlankFound(text, pos);
    var key := LiteralFound(text, start);
    LiteralReads(text, start, key);
    var afterKey := BlankFound(text, start + |Literal(key)|);
    CharAt(text, colon);
    var beforeValue := BlankFound(text, colon + 1);
    var d := LaidFound(f, text, value);
    LaidReads(f, d, text, value);
    var after := BlankFound(text, value + |Text(f, d)|);
    m := LaidMember(before, key, afterKey, beforeValue, d, after);
    MemberJoined(f, m, text, pos, colon, value);
  }

  lemma {:induction false} MembersFound(f: NumberFormat, text: string, pos: nat, read: seq<Member>)
    returns (members: seq<LaidMember>)
    requires pos <= |text| && MembersAt(f, text, pos, read).Ok?
    ensures members != [] && LegalMembers(f, members) && At(text, pos, MembersText(f, members))
    decreases |text| - pos, 2
  {
    hide SkipSpace, MemberAt, At, LegalPieces, Legal, MembersText, MemberText;
    var m := MemberFound(f, text, pos);
    var end := pos + |MemberText(f, m)|;
    var more := read + [MemberAt(f, text, pos).value];
    assert AfterMember(f, text, end, more).Ok?;
    CharAt(text, end);
    var rest := [];
    if text[end] == ',' {
      rest := MembersFound(f, text, end + 1, more);
      AtJoin(text, end, ",", MembersText(f, rest));
    }
    MembersUnfold(f, m, rest);
    AtJoin(text, pos, MemberText(f, m), if rest == [] then "}" else "," + MembersText(f, rest));
    members := [m] + rest;
  }

  /** The whole text: a value with white space before and behind it. */
  ghost predicate LaysOut(f: NumberFormat, text: string, lead: string, d: Laid, trail: string, v: Value) {
    Blank(lead) && Blank(trail) && Legal(f, d) && text == lead + (Text(f, d) + trail) && ValueOf(f, d) == v
  }

  /** However a value is laid out, it is parsed. */
  lemma LayoutParses(f: NumberFormat, text: string, lead: string, d: Laid, trail: string, v: Value)
    requires LaysOut(f, text, lead, d, trail, v)
    ensures Parse(f, text) == Success(v)
  {
    hide SkipSpace, ValueAt, Text, Legal, ValueOf, IsSpace;
    TextStarts(f, d);
    assert At(text, 0, text);
    var start := TokenFound(text, 0, lead, Text(f, d), trail);
    var end := start + |Text(f, d)|;
    if d.LaidNumber? && trail != "" {
      NumberChars(trail[0]);
    }
    LaidReads(f, d, text, start);
    BlankSkipped(text, end, trail);
  }

  /** What is parsed is laid out. */
  lemma ParsedLayout(f: NumberFormat, text: string, v: Value) returns (lead: string, d: Laid, trail: string)
    requires Parse(f, text) == Success(v)
    ensures LaysOut(f, text, lead, d, trail, v)
  {
    hide SkipSpace, ValueAt, Text, Legal, ValueOf, NoNumberAt;
    lead := BlankFound(text, 0);
    d := LaidFound(f, text, |lead|);
    LaidReads(f, d, text, |lead|);
    var end := |lead| + |Text(f, d)|;
    trail := BlankFound(text, end);
    AtJoin(text, |lead|, Text(f, d), trail);
    AtJoin(text, 0, lead, Text(f, d) + trail);
  }

  /** Parsing gives v exactly for the texts that lay out v. */
  lemma ParseMeans(f: NumberFormat, text: string, v: Value)
    ensures Parse(f, text) == Success(v) <==> exists lead, d, trail :: LaysOut(f, text, lead, d, trail, v)
  {
    hide Parse, LaysOut;
    if Parse(f, text) == Success(v) {
      var lead, d, trail := ParsedLayout(f, text, v);
    } else if lead, d, trail :| LaysOut(f, text, lead, d, trail, v) {
      LayoutParses(f, text, lead, d, trail, v);
    }
  }
}
