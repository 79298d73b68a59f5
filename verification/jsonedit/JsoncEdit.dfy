// resolveJSONContainer, insertJSONMember and removeJSONMember of mcp/jsonedit.go: each edit is one
// splice into the text.

module JsoncEdit {
  import opened ByteSeqs
  import opened JsonGrammar
  import opened JsoncScan
  import opened Options
  import opened Results

  // What json.Encoder writes for the caller's value when every line after the first is prefixed.
  type Encoder = Bytes -> Bytes

  // What json.Encoder writes between the quotes for a key of a map.
  type KeyEncoder = Bytes -> Bytes

  datatype Place = Place(brace: nat, depth: nat)

  // ---------------------------------------------------------------- finding the container

  function ResolveFrom(raw: Bytes, brace: nat, path: seq<Bytes>, depth: nat): (r: Result<Place, EditError>)
    requires brace < |raw| && depth <= |path|
    ensures r.Ok? ==> brace <= r.value.brace < |raw| && depth <= r.value.depth <= |path|
    decreases |path| - depth
  {
    if depth == |path| then Ok(Place(brace, depth))
    else match Find(raw, brace, path[depth])
      case Refused(e) => Refused(e)
      case Ok(None) => Ok(Place(brace, depth))
      case Ok(Some(span)) =>
        if raw[span.valueStart] != LBRACE then Refused(NotAContainer)
        else ResolveFrom(raw, span.valueStart, path, depth + 1)
  }

  function Resolve(raw: Bytes, path: seq<Bytes>): (r: Result<Place, EditError>)
    ensures r.Ok? ==> r.value.brace < |raw| && r.value.depth <= |path|
  {
    var root := SkipSpace(raw, 0);
    if root == |raw| || raw[root] != LBRACE then Refused(NotAnObject) else ResolveFrom(raw, root, path, 0)
  }

  lemma {:induction false} ObjectsOnly(raw: Bytes, brace: nat, path: seq<Bytes>, depth: nat)
    requires brace < |raw| && depth <= |path|
    ensures ResolveFrom(raw, brace, path, depth) != Refused(NotAnObject)
    decreases |path| - depth
  {
    FindIsNoRoot(raw, brace, if depth < |path| then path[depth] else []);
    hide Find;
    if depth < |path| && Find(raw, brace, path[depth]).Ok? && Find(raw, brace, path[depth]).value.Some? {
      ObjectsOnly(raw, Find(raw, brace, path[depth]).value.value.valueStart, path, depth + 1);
    }
  }

  lemma FindIsNoRoot(raw: Bytes, brace: nat, name: Bytes)
    ensures Find(raw, brace, name) != Refused(NotAnObject)
  {
    var close := Close(raw, brace, LBRACE, RBRACE, 0);
    if close.Some? && FindFrom(raw, brace + 1, close.value, KeyText(name)).Refused? {
      var k := RefusalIsTrue(raw, brace + 1, close.value, KeyText(name));
    }
    hide FindFrom;
  }

  // A document is refused for its root if and only if it does not start with an opening brace behind the
  // space and comments in front.
  lemma RootIsObject(raw: Bytes, path: seq<Bytes>)
    ensures Resolve(raw, path) == Refused(NotAnObject) <==>
              var root := SkipSpace(raw, 0); root == |raw| || raw[root] != '{' as int
  {
    var root := SkipSpace(raw, 0);
    if root < |raw| {
      ObjectsOnly(raw, root, path, 0);
    }
    hide ResolveFrom, SkipSpace;
  }

  method ResolveJSONContainer(raw: Bytes, path: seq<Bytes>) returns (r: Result<Place, EditError>)
    ensures r == Resolve(raw, path)
  {
    var brace: nat := SkipJSONSpace(raw, 0);
    if brace >= |raw| || raw[brace] != LBRACE {
      return Refused(NotAnObject);
    }
    var depth: nat := 0;
    ghost var root := brace;
    while depth < |path|
      invariant brace < |raw| && depth <= |path|
      invariant ResolveFrom(raw, brace, path, depth) == ResolveFrom(raw, root, path, 0)
    {
      var found := FindJSONMember(raw, brace, path[depth]);
      if found.Refused? {
        return Refused(found.reason);
      }
      if found.value.None? {
        return Ok(Place(brace, depth));
      }
      if raw[found.value.value.valueStart] != LBRACE {
        return Refused(NotAContainer);
      }
      brace, depth := found.value.value.valueStart, depth + 1;
    }
    return Ok(Place(brace, depth));
  }

  // ---------------------------------------------------------------- indentation

  predicate IsIndent(b: byte) { b == SPACE || b == TAB }

  // The start of the line position i is on.
  function LineStart(raw: Bytes, i: nat): (r: nat)
    requires i <= |raw|
    ensures r <= i
  {
    if i == 0 || raw[i - 1] == LF then i else LineStart(raw, i - 1)
  }

  function IndentEnd(raw: Bytes, i: nat, end: nat): (r: nat)
    requires i <= end <= |raw|
    ensures i <= r <= end
    ensures forall k :: i <= k < r ==> IsIndent(raw[k])
    decreases end - i
  {
    if i < end && IsIndent(raw[i]) then IndentEnd(raw, i + 1, end) else i
  }

  // The leading whitespace of the line the brace is on.
  function BraceIndent(raw: Bytes, brace: nat): (r: Bytes)
    requires brace <= |raw|
    ensures forall b <- r :: IsIndent(b)
  {
    raw[LineStart(raw, brace)..IndentEnd(raw, LineStart(raw, brace), brace)]
  }

  const STEP: Bytes := [SPACE, SPACE]

  function MemberIndent(raw: Bytes, brace: nat): Bytes
    requires brace <= |raw|
  {
    BraceIndent(raw, brace) + STEP
  }

  // ---------------------------------------------------------------- encoding

  // The caller's value inside the single-key maps that stand for missing containers, with their keys as
  // they are written.
  datatype Nested = Given | Map(key: Bytes, inner: Nested)

  function EncodedKeys(names: seq<Bytes>, key: KeyEncoder): seq<Bytes> {
    seq(|names|, i requires 0 <= i < |names| => key(names[i]))
  }

  function Chain(names: seq<Bytes>): Nested {
    if names == [] then Given else Map(names[0], Chain(names[1..]))
  }

  const COLON_SPACE: Bytes := [COLON, SPACE]

  function NestedText(nested: Nested, encode: Encoder, prefix: Bytes): Bytes {
    match nested
    case Given => encode(prefix)
    case Map(key, inner) =>
      [LBRACE, LF] + prefix + STEP + KeyText(key) + COLON_SPACE + NestedText(inner, encode, prefix + STEP)
      + [LF] + prefix + [RBRACE]
  }

  // ---------------------------------------------------------------- insert

  // How many bytes the white space at the front of a text takes in UTF-8, 0 if it starts with something
  // else: U+0009 to U+000D, U+0020, U+0085, U+00A0, U+1680, U+2000 to U+200A, U+2028, U+2029, U+202F,
  // U+205F and U+3000.
  function WhiteSpace(s: Bytes): (r: nat)
    ensures r <= |s| && (r > 0 ==> s[0] == SPACE || TAB <= s[0] <= CR || s[0] >= 0x80)
  {
    if |s| >= 1 && (s[0] == SPACE || TAB <= s[0] <= CR) then 1
    else if |s| >= 2 && s[0] == 0xC2 && s[1] in {0x85, 0xA0} then 2
    else if |s| >= 3 && s[..3] == [0xE1, 0x9A, 0x80] then 3
    else if |s| >= 3 && s[..2] == [0xE2, 0x80] && (0x80 <= s[2] <= 0x8A || s[2] in {0xA8, 0xA9, 0xAF}) then 3
    else if |s| >= 3 && s[..3] == [0xE2, 0x81, 0x9F] then 3
    else if |s| >= 3 && s[..3] == [0xE3, 0x80, 0x80] then 3
    else 0
  }

  // What strings.TrimSpace trims to nothing.
  predicate IsBlank(raw: Bytes) {
    raw == [] || (WhiteSpace(raw) > 0 && IsBlank(raw[WhiteSpace(raw)..]))
  }

  const EMPTY_DOCUMENT: Bytes := [LBRACE, RBRACE, LF]

  function OrEmptyObject(raw: Bytes): Bytes {
    if IsBlank(raw) then EMPTY_DOCUMENT else raw
  }

  predicate ClosesAtOnce(raw: Bytes, brace: nat)
    requires brace < |raw|
  {
    var next := SkipSpace(raw, brace + 1);
    next < |raw| && raw[next] == RBRACE
  }

  // What goes right behind the opening brace.
  function MemberBlock(raw: Bytes, brace: nat, name: Bytes, nested: Nested, encode: Encoder): Bytes
    requires brace < |raw|
  {
    var indent := MemberIndent(raw, brace);
    [LF] + indent + KeyText(name) + COLON_SPACE + NestedText(nested, encode, indent)
    + if ClosesAtOnce(raw, brace) then [LF] + BraceIndent(raw, brace) else [COMMA]
  }

  function Splice(raw: Bytes, from: nat, to: nat, text: Bytes): Bytes
    requires from <= to <= |raw|
  {
    raw[..from] + text + raw[to..]
  }

  function InsertAt(raw: Bytes, place: Place, path: seq<Bytes>, name: Bytes, encode: Encoder, key: KeyEncoder)
    : Result<Bytes, EditError>
    requires place.brace < |raw| && place.depth <= |path|
  {
    var at := place.brace + 1;
    if place.depth < |path| then
      var nested := Chain(EncodedKeys(path[place.depth + 1..] + [name], key));
      Ok(Splice(raw, at, at, MemberBlock(raw, place.brace, path[place.depth], nested, encode)))
    else match Find(raw, place.brace, name)
      case Refused(e) => Refused(e)
      case Ok(Some(span)) =>
        Ok(Splice(raw, span.valueStart, span.valueEnd, encode(MemberIndent(raw, place.brace))))
      case Ok(None) =>
        Ok(Splice(raw, at, at, MemberBlock(raw, place.brace, name, Given, encode)))
  }

  function Insert(given: Bytes, path: seq<Bytes>, name: Bytes, encode: Encoder, key: KeyEncoder)
    : Result<Bytes, EditError>
  {
    var raw := OrEmptyObject(given);
    match Resolve(raw, path)
    case Refused(e) => Refused(e)
    case Ok(place) => InsertAt(raw, place, path, name, encode, key)
  }

  lemma KeysUnfold(names: seq<Bytes>, key: KeyEncoder)
    requires names != []
    ensures Chain(EncodedKeys(names, key)) == Map(key(names[0]), Chain(EncodedKeys(names[1..], key)))
    ensures |names| == 1 ==> Chain(EncodedKeys(names[1..], key)) == Given
  {
    assert EncodedKeys(names, key)[1..] == EncodedKeys(names[1..], key);
  }

  method InsertJSONMember(given: Bytes, path: seq<Bytes>, givenName: Bytes, encode: Encoder, key: KeyEncoder)
    returns (r: Result<Bytes, EditError>)
    ensures r == Insert(given, path, givenName, encode, key)
  {
    hide NestedText, Find, SkipSpace, BraceIndent, Resolve, EncodedKeys, Chain, KeyText, IsBlank;
    var raw, name := given, givenName;
    if IsBlank(raw) {
      raw := EMPTY_DOCUMENT;
    }
    var resolved := ResolveJSONContainer(raw, path);
    if resolved.Refused? {
      return Refused(resolved.reason);
    }
    var brace, depth := resolved.value.brace, resolved.value.depth;
    if depth == |path| {
      var found := FindJSONMember(raw, brace, name);
      if found.Refused? {
        return Refused(found.reason);
      }
      if found.value.Some? {
        var span := found.value.value;
        var encoded := encode(MemberIndent(raw, brace));
        return Ok(raw[..span.valueStart] + encoded + raw[span.valueEnd..]);
      }
    }
    var nested := Given;
    if depth < |path| {
      nested := Map(key(name), Given);
      var level := |path| - 1;
      assert path[level + 1..] + [name] == [name];
      KeysUnfold([name], key);
      while level > depth
        invariant depth <= level < |path|
        invariant nested == Chain(EncodedKeys(path[level + 1..] + [name], key))
      {
        assert path[level..] + [name] == [path[level]] + (path[level + 1..] + [name]);
        KeysUnfold(path[level..] + [name], key);
        nested := Map(key(path[level]), nested);
        level := level - 1;
      }
      name := path[depth];
    }
    var indent := MemberIndent(raw, brace);
    var member := KeyText(name) + COLON_SPACE + NestedText(nested, encode, indent);
    var next := SkipJSONSpace(raw, brace + 1);
    var block := [LF] + indent + member;
    if next < |raw| && raw[next] == RBRACE {
      block := block + ([LF] + BraceIndent(raw, brace));
    } else {
      block := block + [COMMA];
    }
    assert [LF] + indent + member == [LF] + indent + KeyText(name) + COLON_SPACE + NestedText(nested, encode, indent);
    return Ok(raw[..brace + 1] + block + raw[brace + 1..]);
  }

  // ---------------------------------------------------------------- remove

  function NextByte(raw: Bytes, i: nat, want: byte): (r: Option<nat>)
    requires !IsSpace(want)
    ensures r.Some? ==> i <= r.value < |raw|
    decreases |raw| - i
  {
    if i >= |raw| then None
    else if IsSpace(raw[i]) then NextByte(raw, i + 1, want)
    else if raw[i] == want then Some(i)
    else None
  }

  function PreviousByte(raw: Bytes, i: nat, want: byte): (r: Option<nat>)
    requires i <= |raw| && !IsSpace(want)
    ensures r.Some? ==> r.value < i
  {
    if i == 0 then None
    else if IsSpace(raw[i - 1]) then PreviousByte(raw, i - 1, want)
    else if raw[i - 1] == want then Some(i - 1)
    else None
  }

  function IndentStart(raw: Bytes, i: nat): (r: nat)
    requires i <= |raw|
    ensures r <= i
  {
    if i > 0 && IsIndent(raw[i - 1]) then IndentStart(raw, i - 1) else i
  }

  // Before the indentation and the line break in front of position i.
  function TrimLineStart(raw: Bytes, i: nat): (r: nat)
    requires i <= |raw|
    ensures r <= i
  {
    var at := IndentStart(raw, i);
    if at > 0 && raw[at - 1] == LF then
      if at > 1 && raw[at - 2] == CR then at - 2 else at - 1
    else at
  }

  datatype Removal = Removal(text: Bytes, removed: bool)

  function CutSpan(raw: Bytes, span: Span): Bytes
    requires span.keyStart <= span.valueEnd <= |raw|
  {
    match NextByte(raw, span.valueEnd, COMMA)
    case Some(comma) => Splice(raw, TrimLineStart(raw, span.keyStart), comma + 1, [])
    case None =>
      match PreviousByte(raw, span.keyStart, COMMA)
      case Some(comma) => Splice(raw, comma, span.valueEnd, [])
      case None => Splice(raw, TrimLineStart(raw, span.keyStart), span.valueEnd, [])
  }

  function Remove(raw: Bytes, path: seq<Bytes>, name: Bytes): Result<Removal, EditError> {
    match Resolve(raw, path)
    case Refused(e) => Refused(e)
    case Ok(place) =>
      if place.depth != |path| then Ok(Removal(raw, false))
      else match Find(raw, place.brace, name)
        case Refused(e) => Refused(e)
        case Ok(None) => Ok(Removal(raw, false))
        case Ok(Some(span)) => Ok(Removal(CutSpan(raw, span), true))
  }

  method NextJSONByte(raw: Bytes, start: nat, want: byte) returns (r: Option<nat>)
    requires !IsSpace(want)
    ensures r == NextByte(raw, start, want)
  {
    var index := start;
    while index < |raw|
      invariant NextByte(raw, index, want) == NextByte(raw, start, want)
    {
      if IsSpace(raw[index]) {
        index := index + 1;
      } else if raw[index] == want {
        return Some(index);
      } else {
        return None;
      }
    }
    return None;
  }

  method PreviousJSONByte(raw: Bytes, start: nat, want: byte) returns (r: Option<nat>)
    requires start <= |raw| && !IsSpace(want)
    ensures r == PreviousByte(raw, start, want)
  {
    var index: nat := start;
    while index > 0
      invariant index <= start
      invariant PreviousByte(raw, index, want) == PreviousByte(raw, start, want)
    {
      if IsSpace(raw[index - 1]) {
        index := index - 1;
      } else if raw[index - 1] == want {
        return Some(index - 1);
      } else {
        return None;
      }
    }
    return None;
  }

  method TrimJSONLineStart(raw: Bytes, start: nat) returns (index: nat)
    requires start <= |raw|
    ensures index == TrimLineStart(raw, start)
  {
    index := start;
    while index > 0 && (raw[index - 1] == SPACE || raw[index - 1] == TAB)
      invariant index <= start && IndentStart(raw, index) == IndentStart(raw, start)
    {
      index := index - 1;
    }
    if index > 0 && raw[index - 1] == LF {
      index := index - 1;
      if index > 0 && raw[index - 1] == CR {
        index := index - 1;
      }
    }
  }

  method RemoveJSONMember(raw: Bytes, path: seq<Bytes>, name: Bytes) returns (r: Result<Removal, EditError>)
    ensures r == Remove(raw, path, name)
  {
    hide Resolve, Find, TrimLineStart, NextByte, PreviousByte;
    var resolved := ResolveJSONContainer(raw, path);
    if resolved.Refused? {
      return Refused(resolved.reason);
    }
    if resolved.value.depth != |path| {
      return Ok(Removal(raw, false));
    }
    var found := FindJSONMember(raw, resolved.value.brace, name);
    if found.Refused? {
      return Refused(found.reason);
    }
    if found.value.None? {
      return Ok(Removal(raw, false));
    }
    var span := found.value.value;
    var start: nat, end: nat := span.keyStart, span.valueEnd;
    var next := NextJSONByte(raw, end, COMMA);
    if next.Some? {
      end := next.value + 1;
      start := TrimJSONLineStart(raw, start);
    } else {
      var previous := PreviousJSONByte(raw, start, COMMA);
      if previous.Some? {
        start := previous.value;
      } else {
        start := TrimJSONLineStart(raw, start);
      }
    }
    assert raw[..start] + [] + raw[end..] == raw[..start] + raw[end..];
    return Ok(Removal(raw[..start] + raw[end..], true));
  }
}
