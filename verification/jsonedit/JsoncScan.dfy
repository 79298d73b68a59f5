// The scanners of mcp/jsonedit.go over JSON with comments: the functions say where each scan
// stops, the methods are the index-advancing loops of the source.

module JsoncScan {
  import opened ByteSeqs
  import opened JsonGrammar
  import opened Options
  import opened Results

  const STAR: byte := 0x2A

  datatype EditError =
    | NotAnObject | UnterminatedObject | UnterminatedComment | UnterminatedString
    | UnexpectedByte | MalformedMember | MalformedValue | NotAContainer

  datatype Span = Span(keyStart: nat, valueStart: nat, valueEnd: nat)

  // ---------------------------------------------------------------- whitespace and comments

  predicate CommentAt(raw: Bytes, i: nat) {
    i + 1 < |raw| && raw[i] == SLASH && (raw[i + 1] == SLASH || raw[i + 1] == STAR)
  }

  // A comment starts with two slashes, or with a slash and a star.
  lemma CommentMarks(raw: Bytes, i: nat)
    ensures CommentAt(raw, i) <==>
              i + 1 < |raw| && raw[i] == '/' as int && (raw[i + 1] == '/' as int || raw[i + 1] == '*' as int)
  {
  }

  function LineEnd(raw: Bytes, i: nat): (r: nat)
    requires i <= |raw|
    ensures i <= r <= |raw|
    ensures i < |raw| && raw[i] != LF ==> i < r
    decreases |raw| - i
  {
    if i == |raw| || raw[i] == LF then i else LineEnd(raw, i + 1)
  }

  // Where the next star and slash stand.
  function CommentClose(raw: Bytes, i: nat): (r: Option<nat>)
    ensures r.Some? ==> i <= r.value && r.value + 2 <= |raw|
    decreases |raw| - i
  {
    if i + 2 > |raw| then None
    else if raw[i] == STAR && raw[i + 1] == SLASH then Some(i)
    else CommentClose(raw, i + 1)
  }

  function SkipSpace(raw: Bytes, i: nat): (r: nat)
    requires i <= |raw|
    ensures i <= r <= |raw|
    decreases |raw| - i
  {
    if i == |raw| then i
    else if IsSpace(raw[i]) then SkipSpace(raw, i + 1)
    else if !CommentAt(raw, i) then i
    else if raw[i + 1] == SLASH then SkipSpace(raw, LineEnd(raw, i))
    else match CommentClose(raw, i + 2)
      case None => |raw|
      case Some(end) => SkipSpace(raw, end + 2)
  }

  method SkipJSONSpace(raw: Bytes, start: nat) returns (index: nat)
    requires start <= |raw|
    ensures index == SkipSpace(raw, start)
  {
    index := start;
    while index < |raw|
      invariant start <= index <= |raw|
      invariant SkipSpace(raw, index) == SkipSpace(raw, start)
      decreases |raw| - index
    {
      if IsSpace(raw[index]) {
        index := index + 1;
      } else if index + 1 < |raw| && raw[index] == SLASH && raw[index + 1] == SLASH {
        ghost var from := index;
        while index < |raw| && raw[index] != LF
          invariant from <= index <= |raw|
          invariant LineEnd(raw, index) == LineEnd(raw, from)
        {
          index := index + 1;
        }
        assert index == LineEnd(raw, from);
      } else if index + 1 < |raw| && raw[index] == SLASH && raw[index + 1] == STAR {
        var end := CommentClose(raw, index + 2);
        if end.None? {
          return |raw|;
        }
        index := end.value + 2;
      } else {
        return;
      }
    }
  }

  // ---------------------------------------------------------------- strings

  // The end of a string literal, from inside it.
  function QuoteEnd(raw: Bytes, i: nat): (r: Option<nat>)
    ensures r.Some? ==> i < r.value <= |raw|
    decreases |raw| - i
  {
    if i >= |raw| then None
    else if raw[i] == BACKSLASH then QuoteEnd(raw, i + 2)
    else if raw[i] == QUOTE then Some(i + 1)
    else QuoteEnd(raw, i + 1)
  }

  method JSONStringEnd(raw: Bytes, start: nat) returns (r: Option<nat>)
    requires start < |raw|
    ensures r == QuoteEnd(raw, start + 1)
  {
    var index := start + 1;
    while index < |raw|
      invariant QuoteEnd(raw, index) == QuoteEnd(raw, start + 1)
      decreases |raw| - index
    {
      if raw[index] == BACKSLASH {
        index := index + 2;
      } else if raw[index] == QUOTE {
        return Some(index + 1);
      } else {
        index := index + 1;
      }
    }
    return None;
  }

  // ---------------------------------------------------------------- brackets

  // The bracket that brings the depth to zero; strings and comments hold none.
  function Close(raw: Bytes, i: nat, open: byte, closing: byte, depth: int): (r: Option<nat>)
    ensures r.Some? ==> i <= r.value < |raw|
    decreases |raw| - i
  {
    if i >= |raw| then None
    else if raw[i] == QUOTE then
      match QuoteEnd(raw, i + 1)
      case None => None
      case Some(end) => Close(raw, end, open, closing, depth)
    else if CommentAt(raw, i) then
      var next := SkipSpace(raw, i);
      if next <= i then None else Close(raw, next, open, closing, depth)
    else if raw[i] == open then Close(raw, i + 1, open, closing, depth + 1)
    else if raw[i] == closing && depth == 1 then Some(i)
    else if raw[i] == closing then Close(raw, i + 1, open, closing, depth - 1)
    else Close(raw, i + 1, open, closing, depth)
  }

  method JSONCloseIndex(raw: Bytes, start: nat, open: byte, closing: byte) returns (r: Option<nat>)
    ensures r == Close(raw, start, open, closing, 0)
  {
    var index, depth := start, 0;
    while index < |raw|
      invariant Close(raw, index, open, closing, depth) == Close(raw, start, open, closing, 0)
      decreases |raw| - index
    {
      var current := raw[index];
      if current == QUOTE {
        var end := JSONStringEnd(raw, index);
        if end.None? {
          return None;
        }
        index := end.value;
      } else if current == SLASH && index + 1 < |raw| && (raw[index + 1] == SLASH || raw[index + 1] == STAR) {
        var next := SkipJSONSpace(raw, index);
        if next <= index {
          return None;
        }
        index := next;
      } else {
        if current == open {
          depth := depth + 1;
        } else if current == closing {
          depth := depth - 1;
          if depth == 0 {
            return Some(index);
          }
        }
        index := index + 1;
      }
    }
    return None;
  }

  // ---------------------------------------------------------------- values

  function ScalarEnd(raw: Bytes, i: nat): (r: nat)
    requires i <= |raw|
    ensures i <= r <= |raw|
    decreases |raw| - i
  {
    if i == |raw| || raw[i] == COMMA || raw[i] == RBRACE || raw[i] == RBRACKET then i else ScalarEnd(raw, i + 1)
  }

  // A scalar runs to the next comma or closing bracket, or to the end.
  lemma {:induction false} ScalarStops(raw: Bytes, i: nat)
    requires i <= |raw|
    ensures var r := ScalarEnd(raw, i);
            && (forall k :: i <= k < r ==> raw[k] !in {',' as int, '}' as int, ']' as int})
            && (r < |raw| ==> raw[r] in {',' as int, '}' as int, ']' as int})
    decreases |raw| - i
  {
    if i < ScalarEnd(raw, i) {
      ScalarStops(raw, i + 1);
    }
  }

  function AfterClose(close: Option<nat>): Option<nat> {
    match close
    case None => None
    case Some(end) => Some(end + 1)
  }

  function ValueEnd(raw: Bytes, i: nat): (r: Option<nat>)
    requires i <= |raw|
    ensures r.Some? ==> i <= r.value <= |raw|
  {
    var at := SkipSpace(raw, i);
    if at == |raw| then Some(at)
    else if raw[at] == QUOTE then QuoteEnd(raw, at + 1)
    else if raw[at] == LBRACE then AfterClose(Close(raw, at, LBRACE, RBRACE, 0))
    else if raw[at] == LBRACKET then AfterClose(Close(raw, at, LBRACKET, RBRACKET, 0))
    else Some(ScalarEnd(raw, at))
  }

  method SkipJSONValue(raw: Bytes, start: nat) returns (r: Option<nat>)
    requires start <= |raw|
    ensures r == ValueEnd(raw, start)
  {
    var index := SkipJSONSpace(raw, start);
    if index >= |raw| {
      return Some(index);
    }
    if raw[index] == QUOTE {
      r := JSONStringEnd(raw, index);
      return;
    }
    if raw[index] == LBRACE {
      var end := JSONCloseIndex(raw, index, LBRACE, RBRACE);
      return if end.None? then None else Some(end.value + 1);
    }
    if raw[index] == LBRACKET {
      var end := JSONCloseIndex(raw, index, LBRACKET, RBRACKET);
      return if end.None? then None else Some(end.value + 1);
    }
    ghost var from := index;
    while index < |raw| && raw[index] != COMMA && raw[index] != RBRACE && raw[index] != RBRACKET
      invariant from <= index <= |raw|
      invariant ScalarEnd(raw, index) == ScalarEnd(raw, from)
    {
      index := index + 1;
    }
    return Some(index);
  }

  // ---------------------------------------------------------------- members

  function KeyText(name: Bytes): Bytes {
    [QUOTE] + name + [QUOTE]
  }

  // The first member spelled `target` at or after position i of an object that closes at `end`.
  function FindFrom(raw: Bytes, i: nat, end: nat, target: Bytes): (r: Result<Option<Span>, EditError>)
    requires end <= |raw|
    ensures r.Ok? && r.value.Some? ==>
              var span := r.value.value; i <= span.keyStart < span.valueStart <= span.valueEnd <= end
    decreases |raw| - i
  {
    if i >= end then Ok(None)
    else if IsSpace(raw[i]) || raw[i] == COMMA then FindFrom(raw, i + 1, end, target)
    else if CommentAt(raw, i) then
      var next := SkipSpace(raw, i);
      if next <= i then Refused(UnterminatedComment) else FindFrom(raw, next, end, target)
    else if raw[i] != QUOTE then Refused(UnexpectedByte)
    else match QuoteEnd(raw, i + 1)
      case None => Refused(UnterminatedString)
      case Some(keyEnd) =>
        var colon := SkipSpace(raw, keyEnd);
        if colon >= end || raw[colon] != COLON then Refused(MalformedMember)
        else
          var valueStart := SkipSpace(raw, colon + 1);
          var valueEnd := ValueEnd(raw, valueStart);
          if valueEnd.None? || valueEnd.value > end then Refused(MalformedValue)
          else if raw[i..keyEnd] == target then Ok(Some(Span(i, valueStart, valueEnd.value)))
          else FindFrom(raw, valueEnd.value, end, target)
  }

  function Find(raw: Bytes, brace: nat, name: Bytes): (r: Result<Option<Span>, EditError>)
    ensures r.Ok? && r.value.Some? ==>
              var span := r.value.value;
              brace < span.keyStart < span.valueStart <= span.valueEnd < |raw|
  {
    match Close(raw, brace, LBRACE, RBRACE, 0)
    case None => Refused(UnterminatedObject)
    case Some(end) => FindFrom(raw, brace + 1, end, KeyText(name))
  }

  method FindJSONMember(raw: Bytes, brace: nat, name: Bytes) returns (r: Result<Option<Span>, EditError>)
    ensures r == Find(raw, brace, name)
  {
    hide ValueEnd, SkipSpace, QuoteEnd, Close, IsSpace;
    var close := JSONCloseIndex(raw, brace, LBRACE, RBRACE);
    if close.None? {
      return Refused(UnterminatedObject);
    }
    var end := close.value;
    var target := [QUOTE] + name + [QUOTE];
    var index := brace + 1;
    while index < end
      invariant FindFrom(raw, index, end, target) == FindFrom(raw, brace + 1, end, target)
      decreases |raw| - index
    {
      var current := raw[index];
      if IsSpace(current) || current == COMMA {
        index := index + 1;
      } else if current == SLASH && index + 1 < |raw| && (raw[index + 1] == SLASH || raw[index + 1] == STAR) {
        var next := SkipJSONSpace(raw, index);
        if next <= index {
          return Refused(UnterminatedComment);
        }
        index := next;
      } else {
        if current != QUOTE {
          return Refused(UnexpectedByte);
        }
        var keyEnd := JSONStringEnd(raw, index);
        if keyEnd.None? {
          return Refused(UnterminatedString);
        }
        var key := raw[index..keyEnd.value];
        var colon := SkipJSONSpace(raw, keyEnd.value);
        if colon >= end || raw[colon] != COLON {
          return Refused(MalformedMember);
        }
        var valueStart := SkipJSONSpace(raw, colon + 1);
        var valueEnd := SkipJSONValue(raw, valueStart);
        if valueEnd.None? || valueEnd.value > end {
          return Refused(MalformedValue);
        }
        if key == target {
          return Ok(Some(Span(index, valueStart, valueEnd.value)));
        }
        index := valueEnd.value;
      }
    }
    return Ok(None);
  }

  // What is wrong with a member that starts at position k, if anything.
  ghost predicate Faulty(raw: Bytes, k: nat, end: nat, e: EditError)
    requires end <= |raw|
  {
    && k < end && !IsSpace(raw[k]) && raw[k] != ',' as int && !CommentAt(raw, k)
    && match e
       case UnexpectedByte => raw[k] != '"' as int
       case UnterminatedString => raw[k] == '"' as int && QuoteEnd(raw, k + 1).None?
       case MalformedMember =>
         && raw[k] == '"' as int && QuoteEnd(raw, k + 1).Some?
         && var colon := SkipSpace(raw, QuoteEnd(raw, k + 1).value); colon >= end || raw[colon] != ':' as int
       case MalformedValue =>
         && raw[k] == '"' as int && QuoteEnd(raw, k + 1).Some?
         && var colon := SkipSpace(raw, QuoteEnd(raw, k + 1).value);
            && colon < end && raw[colon] == ':' as int
            && var value := ValueEnd(raw, SkipSpace(raw, colon + 1)); value.None? || value.value > end
       case _ => false
  }

  // A search that is refused comes to a member that is wrong in the way it says.
  lemma {:induction false} RefusalIsTrue(raw: Bytes, i: nat, end: nat, target: Bytes) returns (k: nat)
    requires end <= |raw| && FindFrom(raw, i, end, target).Refused?
    ensures i <= k && Faulty(raw, k, end, FindFrom(raw, i, end, target).reason)
    ensures FindFrom(raw, k, end, target) == FindFrom(raw, i, end, target)
    decreases |raw| - i
  {
    hide ValueEnd, SkipSpace, QuoteEnd;
    if IsSpace(raw[i]) || raw[i] == COMMA {
      k := RefusalIsTrue(raw, i + 1, end, target);
    } else if CommentAt(raw, i) {
      CommentIsSkipped(raw, i);
      k := RefusalIsTrue(raw, SkipSpace(raw, i), end, target);
    } else if Faulty(raw, i, end, FindFrom(raw, i, end, target).reason) {
      k := i;
    } else {
      var colon := SkipSpace(raw, QuoteEnd(raw, i + 1).value);
      k := RefusalIsTrue(raw, ValueEnd(raw, SkipSpace(raw, colon + 1)).value, end, target);
    }
  }

  lemma CommentIsSkipped(raw: Bytes, i: nat)
    requires CommentAt(raw, i)
    ensures SkipSpace(raw, i) > i
  {
    assert raw[i] != LF;
    assert !IsSpace(raw[i]);
  }
}
