// The grammar of RFC 8259, sections 2 to 7, as trees that keep every byte of their spelling. A
// document is the text its tree unparses to; nothing here knows about positions or parsing.

module JsonGrammar {
  import opened ByteSeqs

  const TAB: byte := 0x09
  const LF: byte := 0x0A
  const CR: byte := 0x0D
  const SPACE: byte := 0x20
  const QUOTE: byte := 0x22
  const PLUS: byte := 0x2B
  const COMMA: byte := 0x2C
  const MINUS: byte := 0x2D
  const DOT: byte := 0x2E
  const SLASH: byte := 0x2F
  const ZERO: byte := 0x30
  const NINE: byte := 0x39
  const COLON: byte := 0x3A
  const UPPER_A: byte := 0x41
  const UPPER_E: byte := 0x45
  const LBRACKET: byte := 0x5B
  const BACKSLASH: byte := 0x5C
  const RBRACKET: byte := 0x5D
  const LOWER_A: byte := 0x61
  const LOWER_B: byte := 0x62
  const LOWER_E: byte := 0x65
  const LOWER_F: byte := 0x66
  const LOWER_N: byte := 0x6E
  const LOWER_R: byte := 0x72
  const LOWER_T: byte := 0x74
  const LOWER_U: byte := 0x75
  const LBRACE: byte := 0x7B
  const RBRACE: byte := 0x7D

  const TRUE_TEXT: Bytes := [LOWER_T, LOWER_R, LOWER_U, LOWER_E]
  const FALSE_TEXT: Bytes := [LOWER_F, LOWER_A, 0x6C, 0x73, LOWER_E]
  const NULL_TEXT: Bytes := [LOWER_N, LOWER_U, 0x6C, 0x6C]

  const MAX_DEPTH: nat := 64

  // The bytes are the characters they are called after.
  lemma BytesAreCharacters()
    ensures TAB == '\t' as int && LF == '\n' as int && CR == '\r' as int && SPACE == ' ' as int
    ensures QUOTE == '"' as int && PLUS == '+' as int && COMMA == ',' as int && MINUS == '-' as int
    ensures DOT == '.' as int && SLASH == '/' as int && ZERO == '0' as int && NINE == '9' as int
    ensures COLON == ':' as int && UPPER_A == 'A' as int && UPPER_E == 'E' as int
    ensures LBRACKET == '[' as int && BACKSLASH == '\\' as int && RBRACKET == ']' as int
    ensures LOWER_A == 'a' as int && LOWER_B == 'b' as int && LOWER_E == 'e' as int && LOWER_F == 'f' as int
    ensures LOWER_N == 'n' as int && LOWER_R == 'r' as int && LOWER_T == 't' as int && LOWER_U == 'u' as int
    ensures LBRACE == '{' as int && RBRACE == '}' as int
    ensures |TRUE_TEXT| == 4 && forall i :: 0 <= i < 4 ==> TRUE_TEXT[i] == "true"[i] as int
    ensures |FALSE_TEXT| == 5 && forall i :: 0 <= i < 5 ==> FALSE_TEXT[i] == "false"[i] as int
    ensures |NULL_TEXT| == 4 && forall i :: 0 <= i < 4 ==> NULL_TEXT[i] == "null"[i] as int
  {
  }

  predicate IsSpace(b: byte) { b == SPACE || b == TAB || b == CR || b == LF }

  predicate IsDigit(b: byte) { ZERO <= b <= NINE }

  predicate IsHex(b: byte) { IsDigit(b) || UPPER_A <= b <= 0x46 || LOWER_A <= b <= 0x66 }

  predicate IsShortEscape(b: byte) {
    b == QUOTE || b == BACKSLASH || b == SLASH || b == LOWER_B || b == LOWER_F
    || b == LOWER_N || b == LOWER_R || b == LOWER_T
  }

  ghost predicate AllSpace(s: Bytes) { forall b <- s :: IsSpace(b) }

  ghost predicate AllDigits(s: Bytes) { forall b <- s :: IsDigit(b) }

  // ---------------------------------------------------------------- trees

  datatype Item = Plain(b: byte) | Short(c: byte) | Unicode(digits: Bytes) | Pair(high: Bytes, low: Bytes)

  datatype Exponent = NoExponent | Exponent(mark: byte, sign: Bytes, digits: Bytes)

  datatype Json =
    | Null | True | False
    | Number(minus: bool, whole: Bytes, fraction: Bytes, exponent: Exponent)
    | Text(items: seq<Item>)
    | Array(elements: Elements)
    | Object(members: Members)

  // Whitespace may stand on either side of a value, and inside an empty container.
  datatype Elements =
    | NoElements(space: Bytes)
    | LastElement(before: Bytes, value: Json, after: Bytes)
    | NextElement(before: Bytes, value: Json, after: Bytes, rest: Elements)

  datatype Members =
    | NoMembers(space: Bytes)
    | LastMember(member: Member, value: Json, after: Bytes)
    | NextMember(member: Member, value: Json, after: Bytes, rest: Members)

  // Everything of a member up to its value: the key and the space around it and the colon.
  datatype Member = Member(before: Bytes, key: seq<Item>, beforeColon: Bytes, afterColon: Bytes)

  datatype Document = Document(before: Bytes, value: Json, after: Bytes)

  // ---------------------------------------------------------------- spelling

  function ItemText(i: Item): Bytes {
    match i
    case Plain(b) => [b]
    case Short(c) => [BACKSLASH, c]
    case Unicode(digits) => [BACKSLASH, LOWER_U] + digits
    case Pair(high, low) => [BACKSLASH, LOWER_U] + high + [BACKSLASH, LOWER_U] + low
  }

  function ItemsText(items: seq<Item>): Bytes {
    if items == [] then [] else ItemText(items[0]) + ItemsText(items[1..])
  }

  function StringText(items: seq<Item>): Bytes {
    [QUOTE] + ItemsText(items) + [QUOTE]
  }

  function FractionText(fraction: Bytes): Bytes {
    if fraction == [] then [] else [DOT] + fraction
  }

  function ExponentText(e: Exponent): Bytes {
    match e
    case NoExponent => []
    case Exponent(mark, sign, digits) => [mark] + sign + digits
  }

  function MinusText(minus: bool): Bytes {
    if minus then [MINUS] else []
  }

  function JsonText(v: Json): Bytes {
    match v
    case Null => NULL_TEXT
    case True => TRUE_TEXT
    case False => FALSE_TEXT
    case Number(minus, whole, fraction, exponent) =>
      MinusText(minus) + whole + FractionText(fraction) + ExponentText(exponent)
    case Text(items) => StringText(items)
    case Array(elements) => [LBRACKET] + ElementsText(elements) + [RBRACKET]
    case Object(members) => [LBRACE] + MembersText(members) + [RBRACE]
  }

  function ElementsText(es: Elements): Bytes {
    match es
    case NoElements(space) => space
    case LastElement(before, value, after) => before + JsonText(value) + after
    case NextElement(before, value, after, rest) =>
      before + JsonText(value) + after + [COMMA] + ElementsText(rest)
  }

  function MemberText(m: Member): Bytes {
    m.before + StringText(m.key) + m.beforeColon + [COLON] + m.afterColon
  }

  function MembersText(ms: Members): Bytes {
    match ms
    case NoMembers(space) => space
    case LastMember(member, value, after) => MemberText(member) + JsonText(value) + after
    case NextMember(member, value, after, rest) =>
      MemberText(member) + JsonText(value) + after + [COMMA] + MembersText(rest)
  }

  function DocumentText(t: Document): Bytes {
    t.before + JsonText(t.value) + t.after
  }

  // ---------------------------------------------------------------- escapes and surrogates

  function HexDigit(b: byte): nat
    requires IsHex(b)
  {
    if IsDigit(b) then b - ZERO else if b <= 0x46 then b - UPPER_A + 10 else b - LOWER_A + 10
  }

  predicate IsQuad(s: Bytes) {
    |s| == 4 && IsHex(s[0]) && IsHex(s[1]) && IsHex(s[2]) && IsHex(s[3])
  }

  function QuadValue(s: Bytes): (n: nat)
    requires IsQuad(s)
    ensures n < 0x10000
  {
    HexDigit(s[0]) * 0x1000 + HexDigit(s[1]) * 0x100 + HexDigit(s[2]) * 0x10 + HexDigit(s[3])
  }

  predicate IsHighSurrogate(n: nat) { 0xD800 <= n <= 0xDBFF }

  predicate IsLowSurrogate(n: nat) { 0xDC00 <= n <= 0xDFFF }

  // The UTF-8 encoding of a code point.
  function Utf8(point: nat): Bytes
    requires point < 0x110000
  {
    if point < 0x80 then [point]
    else if point < 0x800 then [0xC0 + point / 0x40, 0x80 + point % 0x40]
    else if point < 0x10000 then
      [0xE0 + point / 0x1000, 0x80 + point / 0x40 % 0x40, 0x80 + point % 0x40]
    else [0xF0 + point / 0x40000, 0x80 + point / 0x1000 % 0x40, 0x80 + point / 0x40 % 0x40, 0x80 + point % 0x40]
  }

  function ShortValue(c: byte): byte {
    if c == LOWER_B then 0x08
    else if c == LOWER_F then 0x0C
    else if c == LOWER_N then LF
    else if c == LOWER_R then CR
    else if c == LOWER_T then TAB
    else c
  }

  function PairValue(high: nat, low: nat): nat
    requires IsHighSurrogate(high) && IsLowSurrogate(low)
  {
    0x10000 + (high - 0xD800) * 0x400 + (low - 0xDC00)
  }

  predicate ItemOk(i: Item) {
    match i
    case Plain(b) => b >= 0x20 && b != QUOTE && b != BACKSLASH
    case Short(c) => IsShortEscape(c)
    case Unicode(digits) =>
      IsQuad(digits) && !IsHighSurrogate(QuadValue(digits)) && !IsLowSurrogate(QuadValue(digits))
    case Pair(high, low) =>
      IsQuad(high) && IsQuad(low) && IsHighSurrogate(QuadValue(high)) && IsLowSurrogate(QuadValue(low))
  }

  ghost predicate ItemsOk(items: seq<Item>) { forall i <- items :: ItemOk(i) }

  function ItemValue(i: Item): Bytes
    requires ItemOk(i)
  {
    match i
    case Plain(b) => [b]
    case Short(c) => [ShortValue(c)]
    case Unicode(digits) => Utf8(QuadValue(digits))
    case Pair(high, low) => Utf8(PairValue(QuadValue(high), QuadValue(low)))
  }

  // The characters a string denotes, as UTF-8.
  ghost function ItemsValue(items: seq<Item>): Bytes
    requires ItemsOk(items)
  {
    if items == [] then [] else ItemValue(items[0]) + ItemsValue(items[1..])
  }

  // ---------------------------------------------------------------- well-formedness

  ghost predicate NumberOk(whole: Bytes, fraction: Bytes, exponent: Exponent) {
    && AllDigits(whole) && AllDigits(fraction) && |whole| > 0
    && (whole[0] == ZERO ==> |whole| == 1)
    && (exponent.Exponent? ==>
          && (exponent.mark == LOWER_E || exponent.mark == UPPER_E)
          && (exponent.sign == [] || exponent.sign == [PLUS] || exponent.sign == [MINUS])
          && AllDigits(exponent.digits) && |exponent.digits| > 0)
  }

  // `depth` containers stand around the value.
  ghost predicate JsonOk(v: Json, depth: nat) {
    && depth <= 64
    && match v
       case Number(_, whole, fraction, exponent) => NumberOk(whole, fraction, exponent)
       case Text(items) => ItemsOk(items)
       case Array(elements) => ElementsOk(elements, depth + 1)
       case Object(members) => MembersOk(members, depth + 1) && Distinct(Keys(members))
       case _ => true
  }

  ghost predicate ElementsOk(es: Elements, depth: nat) {
    match es
    case NoElements(space) => AllSpace(space)
    case LastElement(before, value, after) => AllSpace(before) && JsonOk(value, depth) && AllSpace(after)
    case NextElement(before, value, after, rest) =>
      AllSpace(before) && JsonOk(value, depth) && AllSpace(after) && !rest.NoElements? && ElementsOk(rest, depth)
  }

  ghost predicate MemberOk(m: Member) {
    AllSpace(m.before) && ItemsOk(m.key) && AllSpace(m.beforeColon) && AllSpace(m.afterColon)
  }

  ghost predicate MembersOk(ms: Members, depth: nat) {
    match ms
    case NoMembers(space) => AllSpace(space)
    case LastMember(member, value, after) => MemberOk(member) && JsonOk(value, depth) && AllSpace(after)
    case NextMember(member, value, after, rest) =>
      MemberOk(member) && JsonOk(value, depth) && AllSpace(after) && !rest.NoMembers? && MembersOk(rest, depth)
  }

  // The keys an object spells, after escape decoding.
  ghost function Keys(ms: Members): seq<Bytes> {
    match ms
    case NoMembers(_) => []
    case LastMember(member, _, _) => [KeyValue(member)]
    case NextMember(member, _, _, rest) => [KeyValue(member)] + Keys(rest)
  }

  ghost function KeyValue(m: Member): Bytes {
    if ItemsOk(m.key) then ItemsValue(m.key) else []
  }

  ghost predicate Distinct<T>(s: seq<T>) {
    forall i, j :: 0 <= i < j < |s| ==> s[i] != s[j]
  }

  ghost predicate DocumentOk(t: Document) {
    AllSpace(t.before) && JsonOk(t.value, 0) && AllSpace(t.after)
  }

  // ---------------------------------------------------------------- UTF-8

  predicate Continues(s: Bytes, i: nat) { i < |s| && 0x80 <= s[i] <= 0xBF }

  // The length of the well-formed UTF-8 sequence s starts with (section 4 of RFC 3629), or 0.
  function Utf8Length(s: Bytes): (n: nat)
    requires |s| > 0
    ensures n <= |s|
  {
    if s[0] < 0x80 then 1
    else if 0xC2 <= s[0] <= 0xDF && Continues(s, 1) then 2
    else if 0xE0 <= s[0] <= 0xEF && Continues(s, 1) && Continues(s, 2)
            && (s[0] == 0xE0 ==> s[1] >= 0xA0) && (s[0] == 0xED ==> s[1] <= 0x9F) then 3
    else if 0xF0 <= s[0] <= 0xF4 && Continues(s, 1) && Continues(s, 2) && Continues(s, 3)
            && (s[0] == 0xF0 ==> s[1] >= 0x90) && (s[0] == 0xF4 ==> s[1] <= 0x8F) then 4
    else 0
  }

  predicate ValidUtf8(s: Bytes) {
    s == [] || (Utf8Length(s) > 0 && ValidUtf8(s[Utf8Length(s)..]))
  }

  // What validateStrictJSON is for: one value with space around it, in well-formed UTF-8.
  ghost predicate IsStrictJson(s: Bytes) {
    ValidUtf8(s) && exists t: Document :: DocumentOk(t) && DocumentText(t) == s
  }
}
