// The recursive descent parser of mcp/protocol.go. The functions say where each construct that
// starts at a position ends; the class moves its position there, statement by statement.

module StrictParser {
  import opened ByteSeqs
  import opened JsonGrammar
  import opened Options

  function SpaceEnd(d: Bytes, pos: nat): (end: nat)
    requires pos <= |d|
    ensures pos <= end <= |d|
    decreases |d| - pos
  {
    if pos < |d| && IsSpace(d[pos]) then SpaceEnd(d, pos + 1) else pos
  }

  function DigitsEnd(d: Bytes, pos: nat): (end: nat)
    requires pos <= |d|
    ensures pos <= end <= |d|
    decreases |d| - pos
  {
    if pos < |d| && IsDigit(d[pos]) then DigitsEnd(d, pos + 1) else pos
  }

  function LiteralEnd(d: Bytes, pos: nat, literal: Bytes): (end: Option<nat>)
    requires pos <= |d|
    ensures end.Some? ==> end.value == pos + |literal| <= |d|
  {
    if |d| - pos >= |literal| && d[pos..pos + |literal|] == literal then Some(pos + |literal|) else None
  }

  function QuadAt(d: Bytes, pos: nat): Option<nat>
    requires pos <= |d|
  {
    if pos + 4 <= |d| && IsQuad(d[pos..pos + 4]) then Some(QuadValue(d[pos..pos + 4])) else None
  }

  // `pos` is at the backslash.
  function EscapeEnd(d: Bytes, pos: nat): (end: Option<nat>)
    requires pos < |d|
    ensures end.Some? ==> pos < end.value <= |d|
  {
    if pos + 1 == |d| then None
    else if IsShortEscape(d[pos + 1]) then Some(pos + 2)
    else if d[pos + 1] != LOWER_U then None
    else
      var first := QuadAt(d, pos + 2);
      if first.None? || IsLowSurrogate(first.value) then None
      else if !IsHighSurrogate(first.value) then Some(pos + 6)
      else if pos + 8 > |d| || d[pos + 6] != BACKSLASH || d[pos + 7] != LOWER_U then None
      else
        var second := QuadAt(d, pos + 8);
        if second.None? || !IsLowSurrogate(second.value) then None else Some(pos + 12)
  }

  // `pos` is just past the opening quote; the end is just past the closing one.
  function StringEnd(d: Bytes, pos: nat): (end: Option<nat>)
    requires pos <= |d|
    ensures end.Some? ==> pos < end.value <= |d|
    decreases |d| - pos
  {
    if pos == |d| then None
    else if d[pos] == QUOTE then Some(pos + 1)
    else if d[pos] == BACKSLASH then
      var next := EscapeEnd(d, pos);
      if next.None? then None else StringEnd(d, next.value)
    else if d[pos] < 0x20 then None
    else StringEnd(d, pos + 1)
  }

  function WholeEnd(d: Bytes, pos: nat): (end: Option<nat>)
    requires pos <= |d|
    ensures end.Some? ==> pos < end.value <= |d|
  {
    if pos < |d| && d[pos] == ZERO then
      if pos + 1 < |d| && IsDigit(d[pos + 1]) then None else Some(pos + 1)
    else if pos == |d| || !IsDigit(d[pos]) then None
    else Some(DigitsEnd(d, pos + 1))
  }

  function FractionEnd(d: Bytes, pos: nat): (end: Option<nat>)
    requires pos <= |d|
    ensures end.Some? ==> pos <= end.value <= |d|
  {
    if pos == |d| || d[pos] != DOT then Some(pos)
    else if pos + 1 == |d| || !IsDigit(d[pos + 1]) then None
    else Some(DigitsEnd(d, pos + 1))
  }

  function SignEnd(d: Bytes, pos: nat): (end: nat)
    requires pos <= |d|
    ensures pos <= end <= |d|
  {
    if pos < |d| && (d[pos] == PLUS || d[pos] == MINUS) then pos + 1 else pos
  }

  function ExponentEnd(d: Bytes, pos: nat): (end: Option<nat>)
    requires pos <= |d|
    ensures end.Some? ==> pos <= end.value <= |d|
  {
    if pos == |d| || (d[pos] != LOWER_E && d[pos] != UPPER_E) then Some(pos)
    else
      var digits := SignEnd(d, pos + 1);
      if digits == |d| || !IsDigit(d[digits]) then None else Some(DigitsEnd(d, digits))
  }

  function NumberEnd(d: Bytes, pos: nat): (end: Option<nat>)
    requires pos <= |d|
    ensures end.Some? ==> pos < end.value <= |d|
  {
    var whole := WholeEnd(d, if pos < |d| && d[pos] == MINUS then pos + 1 else pos);
    if whole.None? then None
    else
      var fraction := FractionEnd(d, whole.value);
      if fraction.None? then None else ExponentEnd(d, fraction.value)
  }

  // json.Unmarshal of a string body whose escapes are known to be sound.
  function Unquote(body: Bytes): Bytes {
    if body == [] then []
    else if body[0] != BACKSLASH then [body[0]] + Unquote(body[1..])
    else if |body| >= 2 && IsShortEscape(body[1]) then [ShortValue(body[1])] + Unquote(body[2..])
    else if |body| >= 12 && IsQuad(body[2..6]) && IsHighSurrogate(QuadValue(body[2..6]))
            && IsQuad(body[8..12]) && IsLowSurrogate(QuadValue(body[8..12])) then
      Utf8(PairValue(QuadValue(body[2..6]), QuadValue(body[8..12]))) + Unquote(body[12..])
    else if |body| >= 6 && IsQuad(body[2..6]) then Utf8(QuadValue(body[2..6])) + Unquote(body[6..])
    else []
  }

  function ValueEnd(d: Bytes, pos: nat, depth: nat): (end: Option<nat>)
    requires pos <= |d|
    ensures end.Some? ==> pos < end.value <= |d|
    decreases |d| - pos, 2
  {
    var at := SpaceEnd(d, pos);
    if depth > MAX_DEPTH || at == |d| then None
    else if d[at] == LBRACE then ObjectEnd(d, at, depth + 1)
    else if d[at] == LBRACKET then ArrayEnd(d, at, depth + 1)
    else if d[at] == QUOTE then StringEnd(d, at + 1)
    else if d[at] == LOWER_T then LiteralEnd(d, at, TRUE_TEXT)
    else if d[at] == LOWER_F then LiteralEnd(d, at, FALSE_TEXT)
    else if d[at] == LOWER_N then LiteralEnd(d, at, NULL_TEXT)
    else NumberEnd(d, at)
  }

  // `pos` is at the opening brace.
  function ObjectEnd(d: Bytes, pos: nat, depth: nat): (end: Option<nat>)
    requires pos < |d|
    ensures end.Some? ==> pos < end.value <= |d|
    decreases |d| - pos, 1
  {
    var first := SpaceEnd(d, pos + 1);
    if first < |d| && d[first] == RBRACE then Some(first + 1) else MembersEnd(d, first, depth, {})
  }

  // `pos` is at the opening bracket.
  function ArrayEnd(d: Bytes, pos: nat, depth: nat): (end: Option<nat>)
    requires pos < |d|
    ensures end.Some? ==> pos < end.value <= |d|
    decreases |d| - pos, 1
  {
    var first := SpaceEnd(d, pos + 1);
    if first < |d| && d[first] == RBRACKET then Some(first + 1) else ElementsEnd(d, first, depth)
  }

  // From the start of an element to just past the closing bracket.
  function ElementsEnd(d: Bytes, pos: nat, depth: nat): (end: Option<nat>)
    requires pos <= |d|
    ensures end.Some? ==> pos < end.value <= |d|
    decreases |d| - pos, 3
  {
    var value := ValueEnd(d, pos, depth);
    if value.None? then None
    else
      var at := SpaceEnd(d, value.value);
      if at == |d| then None
      else if d[at] == RBRACKET then Some(at + 1)
      else if d[at] == COMMA then ElementsEnd(d, SpaceEnd(d, at + 1), depth)
      else None
  }

  datatype ReadMember = ReadMember(key: Bytes, end: nat)

  // From the start of a key to the end of its value; `seen` holds the keys before it.
  function MemberEnd(d: Bytes, pos: nat, depth: nat, seen: set<Bytes>): (member: Option<ReadMember>)
    requires pos <= |d|
    ensures member.Some? ==> pos < member.value.end <= |d|
    decreases |d| - pos, 2
  {
    if pos == |d| || d[pos] != QUOTE || StringEnd(d, pos + 1).None? then None
    else
      var keyEnd := StringEnd(d, pos + 1).value;
      var key := Unquote(d[pos + 1..keyEnd - 1]);
      var colon := SpaceEnd(d, keyEnd);
      if key in seen || colon == |d| || d[colon] != COLON then None
      else
        var value := ValueEnd(d, colon + 1, depth);
        if value.None? then None else Some(ReadMember(key, value.value))
  }

  // From the start of a key to just past the closing brace.
  function MembersEnd(d: Bytes, pos: nat, depth: nat, seen: set<Bytes>): (end: Option<nat>)
    requires pos <= |d|
    ensures end.Some? ==> pos < end.value <= |d|
    decreases |d| - pos, 3
  {
    var member := MemberEnd(d, pos, depth, seen);
    if member.None? then None
    else
      var at := SpaceEnd(d, member.value.end);
      if at == |d| then None
      else if d[at] == RBRACE then Some(at + 1)
      else if d[at] == COMMA then MembersEnd(d, SpaceEnd(d, at + 1), depth, seen + {member.value.key})
      else None
  }

  lemma ObjectStarts(d: Bytes, pos: nat, depth: nat)
    requires pos < |d|
    ensures var first := SpaceEnd(d, pos + 1);
            ObjectEnd(d, pos, depth) ==
            if first < |d| && d[first] == RBRACE then Some(first + 1) else MembersEnd(d, first, depth, {})
  {
    hide SpaceEnd, MembersEnd;
  }

  lemma ArrayStarts(d: Bytes, pos: nat, depth: nat)
    requires pos < |d|
    ensures var first := SpaceEnd(d, pos + 1);
            ArrayEnd(d, pos, depth) ==
            if first < |d| && d[first] == RBRACKET then Some(first + 1) else ElementsEnd(d, first, depth)
  {
    hide SpaceEnd, ElementsEnd;
  }

  // One round of each loop.
  lemma MembersStep(d: Bytes, pos: nat, depth: nat, seen: set<Bytes>)
    requires pos <= |d|
    ensures MembersEnd(d, pos, depth, seen) ==
            match MemberEnd(d, pos, depth, seen)
            case None => None
            case Some(member) =>
              var at := SpaceEnd(d, member.end);
              if at == |d| then None
              else if d[at] == RBRACE then Some(at + 1)
              else if d[at] == COMMA then MembersEnd(d, SpaceEnd(d, at + 1), depth, seen + {member.key})
              else None
  {
    hide MemberEnd, SpaceEnd;
  }

  lemma ElementsStep(d: Bytes, pos: nat, depth: nat)
    requires pos <= |d|
    ensures ElementsEnd(d, pos, depth) ==
            match ValueEnd(d, pos, depth)
            case None => None
            case Some(end) =>
              var at := SpaceEnd(d, end);
              if at == |d| then None
              else if d[at] == RBRACKET then Some(at + 1)
              else if d[at] == COMMA then ElementsEnd(d, SpaceEnd(d, at + 1), depth)
              else None
  {
    hide ValueEnd, SpaceEnd;
  }

  predicate Accepts(d: Bytes) {
    ValidUtf8(d) && ValueEnd(d, 0, 0).Some? && SpaceEnd(d, ValueEnd(d, 0, 0).value) == |d|
  }

  // A parsing method succeeds exactly when its construct ends somewhere, and stops there.
  predicate Stopped(ok: bool, pos: nat, end: Option<nat>) {
    ok == end.Some? && (ok ==> pos == end.value)
  }

  class Parser {
    const data: Bytes
    var pos: nat

    constructor (data: Bytes)
      ensures this.data == data && pos == 0
    {
      this.data, pos := data, 0;
    }

    method SkipSpace()
      requires pos <= |data|
      modifies this
      ensures pos <= |data| && pos == SpaceEnd(data, old(pos))
    {
      while pos < |data| && IsSpace(data[pos])
        invariant pos <= |data| && SpaceEnd(data, pos) == SpaceEnd(data, old(pos))
      {
        pos := pos + 1;
      }
    }

    method SkipDigits()
      requires pos <= |data|
      modifies this
      ensures pos <= |data| && pos == DigitsEnd(data, old(pos))
    {
      while pos < |data| && IsDigit(data[pos])
        invariant pos <= |data| && DigitsEnd(data, pos) == DigitsEnd(data, old(pos))
      {
        pos := pos + 1;
      }
    }

    method Consume(want: byte) returns (ok: bool)
      requires pos <= |data|
      modifies this
      ensures pos <= |data| && ok == (old(pos) < |data| && data[old(pos)] == want)
      ensures pos == if ok then old(pos) + 1 else old(pos)
    {
      ok := pos < |data| && data[pos] == want;
      if ok {
        pos := pos + 1;
      }
    }

    method ParseLiteral(literal: Bytes) returns (ok: bool)
      requires pos <= |data|
      modifies this
      ensures pos <= |data| && Stopped(ok, pos, LiteralEnd(data, old(pos), literal))
    {
      if |data| - pos < |literal| || data[pos..pos + |literal|] != literal {
        return false;
      }
      pos := pos + |literal|;
      return true;
    }

    method ParseHexQuad() returns (ok: bool, value: nat)
      requires pos <= |data|
      modifies this
      ensures pos <= |data| && ok == QuadAt(data, old(pos)).Some?
      ensures ok ==> value == QuadAt(data, old(pos)).value && pos == old(pos) + 4
    {
      if pos + 4 > |data| || !IsQuad(data[pos..pos + 4]) {
        return false, 0;
      }
      ok, value := true, QuadValue(data[pos..pos + 4]);
      pos := pos + 4;
    }

    method ParseEscape() returns (ok: bool)
      requires pos < |data|
      modifies this
      ensures pos <= |data| && Stopped(ok, pos, EscapeEnd(data, old(pos)))
    {
      pos := pos + 1;
      if pos == |data| {
        return false;
      }
      var escape := data[pos];
      pos := pos + 1;
      if IsShortEscape(escape) {
        return true;
      }
      if escape != LOWER_U {
        return false;
      }
      var value;
      ok, value := ParseHexQuad();
      if !ok || 0xDC00 <= value <= 0xDFFF {
        return false;
      }
      if value < 0xD800 || value > 0xDBFF {
        return true;
      }
      if pos + 2 > |data| || data[pos] != BACKSLASH || data[pos + 1] != LOWER_U {
        return false;
      }
      pos := pos + 2;
      ok, value := ParseHexQuad();
      if !ok || value < 0xDC00 || value > 0xDFFF {
        return false;
      }
    }

    method ParseString() returns (ok: bool, key: Bytes)
      requires pos <= |data|
      modifies this
      ensures old(pos) < |data| && data[old(pos)] == QUOTE ==>
                Stopped(ok, pos, StringEnd(data, old(pos) + 1))
      ensures !(old(pos) < |data| && data[old(pos)] == QUOTE) ==> !ok
      ensures ok ==> old(pos) + 1 < pos <= |data| && key == Unquote(data[old(pos) + 1..pos - 1])
      ensures pos <= |data|
    {
      key := [];
      ok := Consume(QUOTE);
      if !ok {
        return;
      }
      var start := pos - 1;
      while pos < |data|
        invariant start + 1 <= pos <= |data|
        invariant StringEnd(data, pos) == StringEnd(data, start + 1)
        decreases |data| - pos
      {
        var value := data[pos];
        if value == QUOTE {
          pos := pos + 1;
          return true, Unquote(data[start + 1..pos - 1]);
        } else if value == BACKSLASH {
          ok := ParseEscape();
          if !ok {
            return false, [];
          }
        } else if value < 0x20 {
          return false, [];
        } else {
          pos := pos + 1;
        }
      }
      return false, [];
    }

    method ParseNumber() returns (ok: bool)
      requires pos <= |data|
      modifies this
      ensures pos <= |data| && Stopped(ok, pos, NumberEnd(data, old(pos)))
    {
      var minus := Consume(MINUS);
      if minus && pos == |data| {
        return false;
      }
      ok := ParseWhole();
      if ok {
        ok := ParseFraction();
      }
      if ok {
        ok := ParseExponent();
      }
    }

    method ParseWhole() returns (ok: bool)
      requires pos <= |data|
      modifies this
      ensures pos <= |data| && Stopped(ok, pos, WholeEnd(data, old(pos)))
    {
      var zero := Consume(ZERO);
      if zero {
        return pos == |data| || !IsDigit(data[pos]);
      }
      if pos == |data| || data[pos] < ZERO + 1 || data[pos] > NINE {
        return false;
      }
      SkipDigits();
      return true;
    }

    method ParseFraction() returns (ok: bool)
      requires pos <= |data|
      modifies this
      ensures pos <= |data| && Stopped(ok, pos, FractionEnd(data, old(pos)))
    {
      var dot := Consume(DOT);
      if dot {
        if pos == |data| || !IsDigit(data[pos]) {
          return false;
        }
        SkipDigits();
      }
      return true;
    }

    method ParseExponent() returns (ok: bool)
      requires pos <= |data|
      modifies this
      ensures pos <= |data| && Stopped(ok, pos, ExponentEnd(data, old(pos)))
    {
      if pos < |data| && (data[pos] == LOWER_E || data[pos] == UPPER_E) {
        pos := pos + 1;
        if pos < |data| && (data[pos] == PLUS || data[pos] == MINUS) {
          pos := pos + 1;
        }
        if pos == |data| || !IsDigit(data[pos]) {
          return false;
        }
        SkipDigits();
      }
      return true;
    }

    method ParseValue(depth: nat) returns (ok: bool)
      requires pos <= |data|
      modifies this
      ensures pos <= |data| && Stopped(ok, pos, ValueEnd(data, old(pos), depth))
      decreases |data| - pos, 1
    {
      if depth > MAX_DEPTH {
        return false;
      }
      SkipSpace();
      if pos == |data| {
        return false;
      }
      var first := data[pos];
      if first == LBRACE {
        ok := ParseObject(depth + 1);
      } else if first == LBRACKET {
        ok := ParseArray(depth + 1);
      } else if first == QUOTE {
        var key;
        ok, key := ParseString();
      } else if first == LOWER_T {
        ok := ParseLiteral(TRUE_TEXT);
      } else if first == LOWER_F {
        ok := ParseLiteral(FALSE_TEXT);
      } else if first == LOWER_N {
        ok := ParseLiteral(NULL_TEXT);
      } else {
        ok := ParseNumber();
      }
    }

    method ParseObject(depth: nat) returns (ok: bool)
      requires pos < |data|
      modifies this
      ensures pos <= |data| && Stopped(ok, pos, ObjectEnd(data, old(pos), depth))
      decreases |data| - pos, 0
    {
      ObjectStarts(data, pos, depth);
      hide SpaceEnd, MembersEnd, ObjectEnd;
      pos := pos + 1;
      SkipSpace();
      ok := Consume(RBRACE);
      if ok {
        return;
      }
      var seen: set<Bytes> := {};
      ghost var end := MembersEnd(data, pos, depth, seen);
      while true
        invariant old(pos) < pos <= |data|
        invariant MembersEnd(data, pos, depth, seen) == end
        decreases |data| - pos
      {
        var more, key;
        ok, more, key := NextMember(depth, seen);
        if !more {
          return;
        }
        seen := seen + {key};
      }
    }

    // One round of the member loop: it ends the object or goes on with the next member.
    method NextMember(depth: nat, seen: set<Bytes>) returns (closed: bool, more: bool, key: Bytes)
      requires pos <= |data|
      modifies this
      ensures pos <= |data| && (more ==> old(pos) < pos)
      ensures var end := MembersEnd(data, old(pos), depth, seen);
              if more then end == MembersEnd(data, pos, depth, seen + {key})
              else closed == end.Some? && (closed ==> end == Some(pos))
      decreases |data| - pos, 3
    {
      hide *;
      MembersStep(data, pos, depth, seen);
      more := false;
      closed, key := ParseMember(depth, seen);
      if closed {
        closed, more := ParseSeparator(RBRACE);
      }
    }

    // The foot of both loops: the closing bracket, or a comma and the space behind it.
    method ParseSeparator(close: byte) returns (closed: bool, more: bool)
      requires pos <= |data|
      modifies this
      ensures pos <= |data|
      ensures var at := SpaceEnd(data, old(pos));
              && closed == (at < |data| && data[at] == close) && (closed ==> pos == at + 1)
              && more == (!closed && at < |data| && data[at] == COMMA) && (more ==> pos == SpaceEnd(data, at + 1))
    {
      hide SpaceEnd, IsSpace;
      SkipSpace();
      more := false;
      closed := Consume(close);
      if closed {
        return;
      }
      more := Consume(COMMA);
      if more {
        SkipSpace();
      }
    }

    // The head of the member loop of parseObject, up to the end of the member's value.
    method ParseMember(depth: nat, seen: set<Bytes>) returns (ok: bool, key: Bytes)
      requires pos <= |data|
      modifies this
      ensures pos <= |data| && ok == MemberEnd(data, old(pos), depth, seen).Some?
      ensures ok ==> MemberEnd(data, old(pos), depth, seen) == Some(ReadMember(key, pos))
      decreases |data| - pos, 2
    {
      hide StringEnd, Unquote, SpaceEnd, ValueEnd;
      ok, key := ParseString();
      if !ok {
        return;
      }
      if key in seen {
        return false, [];
      }
      SkipSpace();
      ok := Consume(COLON);
      if !ok {
        return;
      }
      ok := ParseValue(depth);
    }

    method ParseArray(depth: nat) returns (ok: bool)
      requires pos < |data|
      modifies this
      ensures pos <= |data| && Stopped(ok, pos, ArrayEnd(data, old(pos), depth))
      decreases |data| - pos, 0
    {
      ArrayStarts(data, pos, depth);
      hide SpaceEnd, ElementsEnd, ArrayEnd;
      pos := pos + 1;
      SkipSpace();
      ok := Consume(RBRACKET);
      if ok {
        return;
      }
      ghost var end := ElementsEnd(data, pos, depth);
      while true
        invariant old(pos) < pos <= |data|
        invariant ElementsEnd(data, pos, depth) == end
        decreases |data| - pos
      {
        var more;
        ok, more := NextElement(depth);
        if !more {
          return;
        }
      }
    }

    // One round of the element loop.
    method NextElement(depth: nat) returns (closed: bool, more: bool)
      requires pos <= |data|
      modifies this
      ensures pos <= |data| && (more ==> old(pos) < pos)
      ensures var end := ElementsEnd(data, old(pos), depth);
              if more then end == ElementsEnd(data, pos, depth)
              else closed == end.Some? && (closed ==> end == Some(pos))
      decreases |data| - pos, 3
    {
      hide SpaceEnd, ValueEnd, ElementsEnd;
      ElementsStep(data, pos, depth);
      more := false;
      closed := ParseValue(depth);
      if closed {
        closed, more := ParseSeparator(RBRACKET);
      }
    }
  }

  // validateStrictJSON
  method ValidateStrictJson(data: Bytes) returns (ok: bool)
    ensures ok == Accepts(data)
  {
    if !ValidUtf8(data) {
      return false;
    }
    var parser := new Parser(data);
    parser.SkipSpace();
    if parser.pos == |data| {
      return false;
    }
    SpaceEndTwice(data, 0);
    ok := parser.ParseValue(0);
    if !ok {
      return;
    }
    parser.SkipSpace();
    ok := parser.pos == |data|;
  }

  lemma {:induction false} SpaceEndTwice(d: Bytes, pos: nat)
    requires pos <= |d|
    ensures SpaceEnd(d, SpaceEnd(d, pos)) == SpaceEnd(d, pos)
    decreases |d| - pos
  {
    if pos < |d| && IsSpace(d[pos]) {
      SpaceEndTwice(d, pos + 1);
    }
  }
}
