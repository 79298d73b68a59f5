// writeFrame of mcp/main.go: a frame leaves as one line, and still denotes the same JSON value.

module FrameWriter {
  import opened ByteSeqs
  import opened JsonGrammar
  import opened StrictParser
  import opened StrictJsonProofs

  // ---------------------------------------------------------------- what a document denotes

  // A number keeps its spelling, a string becomes its characters, spacing disappears.
  datatype Value =
    | NullValue | TrueValue | FalseValue
    | NumberValue(text: Bytes)
    | TextValue(characters: Bytes)
    | ArrayValue(elements: seq<Value>)
    | ObjectValue(members: seq<(Bytes, Value)>)

  ghost function Meaning(v: Json): Value {
    match v
    case Null => NullValue
    case True => TrueValue
    case False => FalseValue
    case Number(_, _, _, _) => NumberValue(JsonText(v))
    case Text(items) => TextValue(if ItemsOk(items) then ItemsValue(items) else [])
    case Array(es) => ArrayValue(ElementValues(es))
    case Object(ms) => ObjectValue(MemberValues(ms))
  }

  ghost function ElementValues(es: Elements): seq<Value> {
    match es
    case NoElements(_) => []
    case LastElement(_, v, _) => [Meaning(v)]
    case NextElement(_, v, _, rest) => [Meaning(v)] + ElementValues(rest)
  }

  ghost function MemberValues(ms: Members): seq<(Bytes, Value)> {
    match ms
    case NoMembers(_) => []
    case LastMember(m, v, _) => [(KeyValue(m), Meaning(v))]
    case NextMember(m, v, _, rest) => [(KeyValue(m), Meaning(v))] + MemberValues(rest)
  }

  ghost predicate Denotes(s: Bytes, value: Value) {
    ValidUtf8(s) && exists t: Document :: DocumentOk(t) && DocumentText(t) == s && Meaning(t.value) == value
  }

  // ---------------------------------------------------------------- the writer

  // bytes.TrimRight(frame, "\r\n")
  function TrimRight(s: Bytes): Bytes {
    if |s| > 0 && (s[|s| - 1] == LF || s[|s| - 1] == CR) then TrimRight(s[..|s| - 1]) else s
  }

  // bytes.ReplaceAll for one byte
  function ReplaceAll(s: Bytes, from: byte, to: byte): (r: Bytes)
    ensures |r| == |s| && forall i :: 0 <= i < |s| ==> r[i] == if s[i] == from then to else s[i]
  {
    if s == [] then [] else [if s[0] == from then to else s[0]] + ReplaceAll(s[1..], from, to)
  }

  ghost predicate OneLine(s: Bytes) { forall b <- s :: b != LF && b != CR }

  function Flat(b: byte): byte { if b == LF || b == CR then SPACE else b }

  ghost function Flatten(s: Bytes): (r: Bytes)
    ensures |r| == |s| && forall i :: 0 <= i < |s| ==> r[i] == Flat(s[i])
  {
    if s == [] then [] else [Flat(s[0])] + Flatten(s[1..])
  }

  // ---------------------------------------------------------------- respacing a document

  lemma FlattenConcat(a: Bytes, b: Bytes)
    ensures Flatten(a + b) == Flatten(a) + Flatten(b)
  {
  }

  lemma FlattenOneLine(s: Bytes)
    ensures OneLine(Flatten(s)) && (OneLine(s) ==> Flatten(s) == s)
  {
    assert forall i :: 0 <= i < |s| ==> s[i] in s;
  }

  lemma FlattenSpace(s: Bytes)
    requires AllSpace(s)
    ensures AllSpace(Flatten(s))
  {
  }

  // The same tree with every line break between tokens turned into a space.
  ghost function Respace(v: Json): Json {
    match v
    case Array(es) => Array(RespaceElements(es))
    case Object(ms) => Object(RespaceMembers(ms))
    case _ => v
  }

  ghost function RespaceElements(es: Elements): Elements {
    match es
    case NoElements(space) => NoElements(Flatten(space))
    case LastElement(before, v, after) => LastElement(Flatten(before), Respace(v), Flatten(after))
    case NextElement(before, v, after, rest) =>
      NextElement(Flatten(before), Respace(v), Flatten(after), RespaceElements(rest))
  }

  ghost function RespaceMember(m: Member): Member {
    Member(Flatten(m.before), m.key, Flatten(m.beforeColon), Flatten(m.afterColon))
  }

  ghost function RespaceMembers(ms: Members): Members {
    match ms
    case NoMembers(space) => NoMembers(Flatten(space))
    case LastMember(m, v, after) => LastMember(RespaceMember(m), Respace(v), Flatten(after))
    case NextMember(m, v, after, rest) =>
      NextMember(RespaceMember(m), Respace(v), Flatten(after), RespaceMembers(rest))
  }

  lemma {:induction false} ItemsOneLine(items: seq<Item>)
    requires ItemsOk(items)
    ensures OneLine(ItemsText(items))
  {
    if items != [] {
      ItemsOneLine(items[1..]);
      assert ItemOk(items[0]);
      match items[0]
      case Unicode(digits) => QuadOneLine(digits);
      case Pair(high, low) => QuadOneLine(high); QuadOneLine(low);
      case _ =>
    }
  }

  lemma QuadOneLine(s: Bytes)
    requires IsQuad(s)
    ensures OneLine(s)
  {
  }

  lemma NumberOneLine(v: Json)
    requires v.Number? && NumberOk(v.whole, v.fraction, v.exponent)
    ensures OneLine(JsonText(v))
  {
  }

  lemma TokenOneLine(v: Json, depth: nat)
    requires JsonOk(v, depth) && !v.Array? && !v.Object?
    ensures OneLine(JsonText(v))
  {
    if v.Number? {
      NumberOneLine(v);
    } else if v.Text? {
      ItemsOneLine(v.items);
    }
  }

  lemma {:induction false} RespaceText(v: Json, depth: nat)
    requires JsonOk(v, depth)
    ensures JsonText(Respace(v)) == Flatten(JsonText(v))
    decreases v, 0
  {
    match v
    case Array(es) =>
      RespaceElementsText(es, depth + 1);
      FlattenConcat([LBRACKET], ElementsText(es));
      FlattenConcat([LBRACKET] + ElementsText(es), [RBRACKET]);
    case Object(ms) =>
      RespaceMembersText(ms, depth + 1);
      FlattenConcat([LBRACE], MembersText(ms));
      FlattenConcat([LBRACE] + MembersText(ms), [RBRACE]);
    case _ =>
      TokenOneLine(v, depth);
      FlattenOneLine(JsonText(v));
  }

  lemma {:induction false} RespaceElementsText(es: Elements, depth: nat)
    requires ElementsOk(es, depth)
    ensures ElementsText(RespaceElements(es)) == Flatten(ElementsText(es))
    decreases es, 1
  {
    hide JsonText, JsonOk, Flatten;
    if !es.NoElements? {
      RespaceText(es.value, depth);
      var head := es.before + JsonText(es.value);
      FlattenConcat(es.before, JsonText(es.value));
      FlattenConcat(head, es.after);
      if es.NextElement? {
        RespaceElementsText(es.rest, depth);
        FlattenComma(head + es.after, ElementsText(es.rest));
      }
    }
  }

  lemma FlattenComma(a: Bytes, b: Bytes)
    ensures Flatten(a + [COMMA] + b) == Flatten(a) + [COMMA] + Flatten(b)
  {
  }

  lemma RespaceMemberText(m: Member)
    requires MemberOk(m)
    ensures MemberText(RespaceMember(m)) == Flatten(MemberText(m))
  {
    hide Flatten, ItemsText;
    var key := StringText(m.key);
    KeyOneLine(m.key);
    FlattenOneLine(key);
    FlattenOneLine([COLON]);
    FlattenConcat(m.before, key);
    FlattenConcat(m.before + key, m.beforeColon);
    FlattenConcat(m.before + key + m.beforeColon, [COLON]);
    FlattenConcat(m.before + key + m.beforeColon + [COLON], m.afterColon);
  }

  lemma KeyOneLine(items: seq<Item>)
    requires ItemsOk(items)
    ensures OneLine(StringText(items))
  {
    ItemsOneLine(items);
  }

  lemma {:induction false} RespaceMembersText(ms: Members, depth: nat)
    requires MembersOk(ms, depth)
    ensures MembersText(RespaceMembers(ms)) == Flatten(MembersText(ms))
    decreases ms, 1
  {
    hide JsonText, JsonOk, Flatten, MemberText, MemberOk, RespaceMember;
    if !ms.NoMembers? {
      RespaceText(ms.value, depth);
      RespaceMemberText(ms.member);
      var head := MemberText(ms.member) + JsonText(ms.value);
      FlattenConcat(MemberText(ms.member), JsonText(ms.value));
      FlattenConcat(head, ms.after);
      if ms.NextMember? {
        RespaceMembersText(ms.rest, depth);
        FlattenComma(head + ms.after, MembersText(ms.rest));
      }
    }
  }

  lemma {:induction false} RespaceKeeps(v: Json, depth: nat)
    requires JsonOk(v, depth)
    ensures JsonOk(Respace(v), depth) && Meaning(Respace(v)) == Meaning(v)
    decreases v, 0
  {
    if v.Array? {
      RespaceElementsKeeps(v.elements, depth + 1);
    } else if v.Object? {
      RespaceMembersKeeps(v.members, depth + 1);
    }
  }

  lemma {:induction false} RespaceElementsKeeps(es: Elements, depth: nat)
    requires ElementsOk(es, depth)
    ensures ElementsOk(RespaceElements(es), depth) && ElementValues(RespaceElements(es)) == ElementValues(es)
    decreases es, 1
  {
    if !es.NoElements? {
      RespaceKeeps(es.value, depth);
      if es.NextElement? {
        RespaceElementsKeeps(es.rest, depth);
      }
    }
  }

  lemma {:induction false} RespaceMembersKeeps(ms: Members, depth: nat)
    requires MembersOk(ms, depth)
    ensures MembersOk(RespaceMembers(ms), depth) && MemberValues(RespaceMembers(ms)) == MemberValues(ms)
    ensures Keys(RespaceMembers(ms)) == Keys(ms)
    decreases ms, 1
  {
    if !ms.NoMembers? {
      RespaceKeeps(ms.value, depth);
      if ms.NextMember? {
        RespaceMembersKeeps(ms.rest, depth);
      }
    }
  }

  // ---------------------------------------------------------------- trimming and UTF-8

  lemma LastIsNoBreak(v: Json, depth: nat)
    requires JsonOk(v, depth)
    ensures var t := JsonText(v); |t| > 0 && t[|t| - 1] != LF && t[|t| - 1] != CR
  {
    if v.Array? || v.Object? {
    } else {
      TokenOneLine(v, depth);
      JsonTextStarts(v, depth);
      assert JsonText(v)[|JsonText(v)| - 1] in JsonText(v);
    }
  }

  lemma StopsBeforeSpace(d: Bytes, pos: nat, space: Bytes)
    requires AllSpace(space) && At(d, pos, space) && Stops(d, pos + |space|)
    ensures Stops(d, pos)
  {
  }

  lemma {:induction false} TrimAfter(text: Bytes, after: Bytes)
    requires |text| > 0 && text[|text| - 1] != LF && text[|text| - 1] != CR
    ensures TrimRight(text + after) == text + TrimRight(after)
    decreases |after|
  {
    var s := text + after;
    if after == [] {
      assert s == text;
    } else {
      TrimAfter(text, after[..|after| - 1]);
      assert s[..|s| - 1] == text + after[..|after| - 1];
    }
  }

  lemma {:induction false} TrimIsPrefix(s: Bytes)
    ensures TrimRight(s) <= s && (ValidUtf8(s) <==> ValidUtf8(TrimRight(s)))
  {
    if |s| > 0 && (s[|s| - 1] == LF || s[|s| - 1] == CR) {
      TrimIsPrefix(s[..|s| - 1]);
      Utf8Append(s[..|s| - 1], s[|s| - 1]);
      assert s == s[..|s| - 1] + [s[|s| - 1]];
    }
  }

  lemma AppendKeepsLength(s: Bytes, b: byte)
    requires s != [] && b < 0x80
    ensures Utf8Length(s + [b]) == Utf8Length(s)
  {
    var t := s + [b];
    forall k | 0 <= k <= |s| ensures if k < |s| then t[k] == s[k] else t[k] < 0x80 {
    }
    assert !Continues(t, |s|);
  }

  lemma {:induction false} Utf8Append(s: Bytes, b: byte)
    requires b < 0x80
    ensures ValidUtf8(s + [b]) <==> ValidUtf8(s)
    decreases |s|
  {
    var t := s + [b];
    if s == [] {
      assert t[1..] == [];
    } else {
      var n := Utf8Length(s);
      AppendKeepsLength(s, b);
      hide Utf8Length;
      if n > 0 {
        Utf8Append(s[n..], b);
        assert t[n..] == s[n..] + [b];
      }
    }
  }

  lemma FlattenKeepsLength(s: Bytes)
    requires s != []
    ensures Flatten(s) != [] && Utf8Length(Flatten(s)) == Utf8Length(s)
  {
    var t := Flatten(s);
    hide Flatten;
    forall k | 0 <= k < |s| ensures if s[k] >= 0x80 then t[k] == s[k] else t[k] < 0x80 {
      assert t[k] == Flat(s[k]);
    }
    hide Flat;
  }

  lemma {:induction false} Utf8Flatten(s: Bytes)
    ensures ValidUtf8(Flatten(s)) <==> ValidUtf8(s)
    decreases |s|
  {
    if s != [] {
      var n := Utf8Length(s);
      FlattenKeepsLength(s);
      hide Utf8Length;
      if n > 0 {
        Utf8Flatten(s[n..]);
        assert Flatten(s)[n..] == Flatten(s[n..]);
      }
    }
  }

  // ---------------------------------------------------------------- one reading

  lemma {:induction false} SameNumber(d: Bytes, pos: nat, a: Json, b: Json)
    requires a.Number? && b.Number?
    requires NumberOk(a.whole, a.fraction, a.exponent) && NumberOk(b.whole, b.fraction, b.exponent)
    requires At(d, pos, JsonText(a)) && At(d, pos, JsonText(b))
    requires Stops(d, pos + |JsonText(a)|) && Stops(d, pos + |JsonText(b)|)
    ensures JsonText(a) == JsonText(b)
  {
    hide At, JsonText;
    NumberComplete(d, pos, a);
    NumberComplete(d, pos, b);
    AtSame(d, pos, JsonText(a), JsonText(b));
  }

  // Two trees spelled at the same place denote the same value.
  lemma {:induction false} SameValue(d: Bytes, pos: nat, depth: nat, a: Json, b: Json)
    requires JsonOk(a, depth) && JsonOk(b, depth)
    requires At(d, pos, JsonText(a)) && At(d, pos, JsonText(b))
    requires Stops(d, pos + |JsonText(a)|) && Stops(d, pos + |JsonText(b)|)
    ensures |JsonText(a)| == |JsonText(b)| && Meaning(a) == Meaning(b)
    decreases a, 1
  {
    hide *;
    ValueComplete(d, pos, depth, a);
    ValueComplete(d, pos, depth, b);
    JsonTextStarts(a, depth);
    JsonTextStarts(b, depth);
    AtFirst(d, pos, JsonText(a));
    AtFirst(d, pos, JsonText(b));
    SameKind(JsonText(a)[0], a, b);
    match a
    case Number(_, _, _, _) => SameNumbers(d, pos, depth, a, b);
    case Text(_) => SameText(d, pos, depth, a, b);
    case Array(_) => SameArray(d, pos, depth, a, b);
    case Object(_) => SameObject(d, pos, depth, a, b);
    case _ =>
  }

  // The first byte tells the kinds of values apart.
  lemma SameKind(c: byte, a: Json, b: Json)
    requires (c == LBRACE <==> a.Object?) && (c == LBRACKET <==> a.Array?) && (c == QUOTE <==> a.Text?)
    requires (c == LOWER_T <==> a.True?) && (c == LOWER_F <==> a.False?) && (c == LOWER_N <==> a.Null?)
    requires (c == LBRACE <==> b.Object?) && (c == LBRACKET <==> b.Array?) && (c == QUOTE <==> b.Text?)
    requires (c == LOWER_T <==> b.True?) && (c == LOWER_F <==> b.False?) && (c == LOWER_N <==> b.Null?)
    ensures a.Number? <==> b.Number?
    ensures a.Null? || a.True? || a.False? ==> a == b
  {
  }

  lemma SameNumbers(d: Bytes, pos: nat, depth: nat, a: Json, b: Json)
    requires a.Number? && b.Number? && JsonOk(a, depth) && JsonOk(b, depth)
    requires At(d, pos, JsonText(a)) && At(d, pos, JsonText(b))
    requires Stops(d, pos + |JsonText(a)|) && Stops(d, pos + |JsonText(b)|)
    ensures Meaning(a) == Meaning(b)
  {
    hide At, JsonText, Stops, NumberOk;
    SameNumber(d, pos, a, b);
  }

  lemma SameText(d: Bytes, pos: nat, depth: nat, a: Json, b: Json)
    requires a.Text? && b.Text? && JsonOk(a, depth) && JsonOk(b, depth)
    requires At(d, pos, JsonText(a)) && At(d, pos, JsonText(b)) && |JsonText(a)| == |JsonText(b)|
    ensures Meaning(a) == Meaning(b)
  {
    hide At, ItemsText, ItemsValue;
    StringJoins(d, pos, a.items);
    StringJoins(d, pos, b.items);
    SameItems(d, pos + 1, a.items, b.items);
  }

  lemma {:induction false} SameArray(d: Bytes, pos: nat, depth: nat, a: Json, b: Json)
    requires a.Array? && b.Array? && JsonOk(a, depth) && JsonOk(b, depth)
    requires At(d, pos, JsonText(a)) && At(d, pos, JsonText(b)) && |JsonText(a)| == |JsonText(b)|
    ensures Meaning(a) == Meaning(b)
    decreases a, 0
  {
    hide At, ElementsText, ElementsOk, ElementValues;
    BracketsJoin(d, pos, LBRACKET, ElementsText(a.elements), RBRACKET);
    BracketsJoin(d, pos, LBRACKET, ElementsText(b.elements), RBRACKET);
    SameElements(d, pos + 1, depth + 1, a.elements, b.elements);
  }

  lemma {:induction false} SameObject(d: Bytes, pos: nat, depth: nat, a: Json, b: Json)
    requires a.Object? && b.Object? && JsonOk(a, depth) && JsonOk(b, depth)
    requires At(d, pos, JsonText(a)) && At(d, pos, JsonText(b)) && |JsonText(a)| == |JsonText(b)|
    ensures Meaning(a) == Meaning(b)
    decreases a, 0
  {
    hide At, MembersText, MembersOk, MemberValues, Keys, Distinct;
    BracketsJoin(d, pos, LBRACE, MembersText(a.members), RBRACE);
    BracketsJoin(d, pos, LBRACE, MembersText(b.members), RBRACE);
    SameMembers(d, pos + 1, depth + 1, a.members, b.members);
  }

  // The head of a non-empty container body.
  ghost function ElementHead(es: Elements): Bytes
    requires !es.NoElements?
  {
    es.before + JsonText(es.value) + es.after
  }

  lemma {:induction false} ElementHeadReads(d: Bytes, pos: nat, depth: nat, es: Elements)
    requires ElementsOk(es, depth) && !es.NoElements? && At(d, pos, ElementsText(es))
    requires var close := pos + |ElementsText(es)|; close < |d| && d[close] == RBRACKET
    ensures At(d, pos + |es.before|, JsonText(es.value)) && Stops(d, pos + |es.before| + |JsonText(es.value)|)
    ensures SpaceEnd(d, pos) == pos + |es.before|
    ensures var stop := pos + |ElementHead(es)|;
            && stop < |d| && SpaceEnd(d, pos + |es.before| + |JsonText(es.value)|) == stop
            && d[stop] == if es.NextElement? then COMMA else RBRACKET
    ensures es.NextElement? ==> At(d, pos + |ElementHead(es)| + 1, ElementsText(es.rest))
  {
    hide *;
    ElementsParts(d, pos, depth, es);
    ElementHeadIs(es);
    MarkStops(d, pos + |ElementHead(es)|);
    PaddedJoins(d, pos, es.before, es.value, es.after);
    PaddedComplete(d, pos, depth, es.before, es.value, es.after);
    StopsBeforeSpace(d, pos + |es.before| + |JsonText(es.value)|, es.after);
  }

  lemma ElementHeadIs(es: Elements)
    requires !es.NoElements?
    ensures ElementHead(es) == es.before + JsonText(es.value) + es.after
  {
  }

  lemma {:induction false} SameElements(d: Bytes, pos: nat, depth: nat, a: Elements, b: Elements)
    requires ElementsOk(a, depth) && ElementsOk(b, depth)
    requires At(d, pos, ElementsText(a)) && At(d, pos, ElementsText(b)) && |ElementsText(a)| == |ElementsText(b)|
    requires var close := pos + |ElementsText(a)|; close < |d| && d[close] == RBRACKET
    ensures ElementValues(a) == ElementValues(b)
    decreases a, 2
  {
    hide At, JsonText, JsonOk, Stops, SpaceEnd, ElementsEnd;
    ElementsComplete(d, pos, depth, a);
    ElementsComplete(d, pos, depth, b);
    if !a.NoElements? {
      ElementHeadReads(d, pos, depth, a);
      ElementHeadReads(d, pos, depth, b);
      SameValue(d, pos + |a.before|, depth, a.value, b.value);
      if a.NextElement? {
        SameElements(d, pos + |ElementHead(a)| + 1, depth, a.rest, b.rest);
      }
    }
  }

  ghost function MemberHead(ms: Members): Bytes
    requires !ms.NoMembers?
  {
    MemberText(ms.member) + JsonText(ms.value) + ms.after
  }

  lemma {:induction false} MemberHeadReads(d: Bytes, pos: nat, depth: nat, ms: Members)
    requires MembersOk(ms, depth) && !ms.NoMembers? && At(d, pos, MembersText(ms))
    requires var close := pos + |MembersText(ms)|; close < |d| && d[close] == RBRACE
    ensures At(d, pos, MemberText(ms.member))
    ensures var value := pos + |MemberText(ms.member)|;
            && SpaceEnd(d, value - |ms.member.afterColon|) == value
            && At(d, value, JsonText(ms.value)) && Stops(d, value + |JsonText(ms.value)|)
    ensures var stop := pos + |MemberHead(ms)|;
            && stop < |d| && SpaceEnd(d, pos + |MemberText(ms.member)| + |JsonText(ms.value)|) == stop
            && d[stop] == if ms.NextMember? then COMMA else RBRACE
    ensures ms.NextMember? ==> At(d, pos + |MemberHead(ms)| + 1, MembersText(ms.rest))
  {
    hide *;
    MembersParts(d, pos, depth, ms);
    MemberHeadIs(ms);
    MarkStops(d, pos + |MemberHead(ms)|);
    PaddedJoins(d, pos, MemberText(ms.member), ms.value, ms.after);
    MemberHeadComplete(d, pos, ms.member);
    MemberSpaces(ms.member);
    PaddedComplete(d, pos + |MemberText(ms.member)| - |ms.member.afterColon|, depth,
                   ms.member.afterColon, ms.value, ms.after);
    StopsBeforeSpace(d, pos + |MemberText(ms.member)| + |JsonText(ms.value)|, ms.after);
  }

  lemma MemberHeadIs(ms: Members)
    requires !ms.NoMembers?
    ensures MemberHead(ms) == MemberText(ms.member) + JsonText(ms.value) + ms.after
  {
  }

  lemma MemberSpaces(m: Member)
    requires MemberOk(m)
    ensures AllSpace(m.afterColon)
  {
  }

  lemma SameMemberHead(d: Bytes, pos: nat, a: Member, b: Member)
    requires MemberOk(a) && MemberOk(b) && At(d, pos, MemberText(a)) && At(d, pos, MemberText(b))
    ensures KeyValue(a) == KeyValue(b)
    ensures |MemberText(a)| - |a.afterColon| == |MemberText(b)| - |b.afterColon|
  {
    hide *;
    MemberHeadComplete(d, pos, a);
    MemberHeadComplete(d, pos, b);
  }

  lemma {:induction false} SameMembers(d: Bytes, pos: nat, depth: nat, a: Members, b: Members)
    requires MembersOk(a, depth) && MembersOk(b, depth) && Distinct(Keys(a)) && Distinct(Keys(b))
    requires At(d, pos, MembersText(a)) && At(d, pos, MembersText(b)) && |MembersText(a)| == |MembersText(b)|
    requires var close := pos + |MembersText(a)|; close < |d| && d[close] == RBRACE
    ensures MemberValues(a) == MemberValues(b)
    decreases a, 2
  {
    hide *;
    FirstMember(d, pos, depth, a, b);
    if a.NoMembers? {
      NoMemberValues(a, b);
    } else {
      MembersParts(d, pos, depth, a);
      MembersParts(d, pos, depth, b);
      MemberHeadIs(a);
      MemberHeadIs(b);
      MemberHeadReads(d, pos, depth, a);
      MemberHeadReads(d, pos, depth, b);
      SameMemberHead(d, pos, a.member, b.member);
      SameValue(d, pos + |MemberText(a.member)|, depth, a.value, b.value);
      MarkStops(d, pos + |MemberHead(a)|);
      if a.NextMember? {
        DistinctRest(a);
        DistinctRest(b);
        SameMembers(d, pos + |MemberHead(a)| + 1, depth, a.rest, b.rest);
      }
      SameFirstMember(a, b);
    }
  }

  lemma NoMemberValues(a: Members, b: Members)
    requires a.NoMembers? && b.NoMembers?
    ensures MemberValues(a) == MemberValues(b)
  {
  }

  lemma SameFirstMember(a: Members, b: Members)
    requires !a.NoMembers? && !b.NoMembers? && (a.NextMember? <==> b.NextMember?)
    requires KeyValue(a.member) == KeyValue(b.member) && Meaning(a.value) == Meaning(b.value)
    requires a.NextMember? ==> MemberValues(a.rest) == MemberValues(b.rest)
    ensures MemberValues(a) == MemberValues(b)
  {
  }

  lemma FirstMember(d: Bytes, pos: nat, depth: nat, a: Members, b: Members)
    requires MembersOk(a, depth) && MembersOk(b, depth) && Distinct(Keys(a)) && Distinct(Keys(b))
    requires At(d, pos, MembersText(a)) && At(d, pos, MembersText(b)) && |MembersText(a)| == |MembersText(b)|
    requires var close := pos + |MembersText(a)|; close < |d| && d[close] == RBRACE
    ensures a.NoMembers? <==> b.NoMembers?
  {
    hide At, MembersText, MembersOk, SpaceEnd, MembersEnd;
    MembersComplete(d, pos, depth, a, {});
    MembersComplete(d, pos, depth, b, {});
  }

  lemma DistinctRest(ms: Members)
    requires ms.NextMember? && Distinct(Keys(ms))
    ensures Distinct(Keys(ms.rest))
  {
    assert forall i :: 0 <= i < |Keys(ms.rest)| ==> Keys(ms.rest)[i] == Keys(ms)[i + 1];
  }

  // A strict document has one reading.
  lemma DenotesOneValue(s: Bytes, v: Value, w: Value)
    requires Denotes(s, v) && Denotes(s, w)
    ensures v == w
  {
    var t: Document :| DocumentOk(t) && DocumentText(t) == s && Meaning(t.value) == v;
    var u: Document :| DocumentOk(u) && DocumentText(u) == s && Meaning(u.value) == w;
    SameDocument(t, u);
  }

  lemma SameDocument(t: Document, u: Document)
    requires DocumentOk(t) && DocumentOk(u) && DocumentText(t) == DocumentText(u)
    ensures Meaning(t.value) == Meaning(u.value)
  {
    hide At, Stops, JsonText, JsonOk, Meaning, SpaceEnd, DocumentText;
    var s := DocumentText(t);
    DocumentReads(s, t);
    DocumentReads(s, u);
    SameValue(s, |t.before|, 0, t.value, u.value);
  }

  lemma DocumentReads(s: Bytes, t: Document)
    requires DocumentOk(t) && DocumentText(t) == s
    ensures At(s, |t.before|, JsonText(t.value)) && Stops(s, |t.before| + |JsonText(t.value)|)
    ensures SpaceEnd(s, 0) == |t.before|
  {
    DocumentParts(s, t);
    hide At, JsonText, JsonOk, SpaceEnd, ValueEnd;
    PaddedComplete(s, 0, 0, t.before, t.value, t.after);
    StopsBeforeSpace(s, |t.before| + |JsonText(t.value)|, t.after);
  }

  // ---------------------------------------------------------------- the line

  // Every reading of the frame is a reading of the line written for it.
  lemma LineKeepsReading(frame: Bytes, line: Bytes, v: Value)
    requires Denotes(frame, v) && line == Flatten(TrimRight(frame)) + [LF]
    ensures Denotes(line, v)
  {
    var t: Document :| DocumentOk(t) && DocumentText(t) == frame && Meaning(t.value) == v;
    var u := RespacedDoc(t);
    hide Meaning, JsonText, JsonOk, Flatten, TrimRight, ValidUtf8, Respace;
    RespacedDocument(t, line);
    RespacedIsOk(t);
    LineUtf8(frame, line);
    assert DocumentText(u) == line;
  }

  // The document the line spells.
  ghost function RespacedDoc(t: Document): Document {
    Document(Flatten(t.before), Respace(t.value), Flatten(TrimRight(t.after)) + [LF])
  }

  lemma RespacedIsOk(t: Document)
    requires DocumentOk(t)
    ensures DocumentOk(RespacedDoc(t)) && Meaning(RespacedDoc(t).value) == Meaning(t.value)
  {
    hide Meaning, JsonOk, Flatten, TrimRight;
    RespaceKeeps(t.value, 0);
    TrimIsPrefix(t.after);
    FlattenSpace(t.before);
    FlattenSpace(TrimRight(t.after));
  }

  lemma LineUtf8(frame: Bytes, line: Bytes)
    requires line == Flatten(TrimRight(frame)) + [LF]
    ensures ValidUtf8(line) <==> ValidUtf8(frame)
  {
    TrimIsPrefix(frame);
    Utf8Flatten(TrimRight(frame));
    Utf8Append(Flatten(TrimRight(frame)), LF);
  }

  lemma RespacedDocument(t: Document, line: Bytes)
    requires DocumentOk(t) && line == Flatten(TrimRight(DocumentText(t))) + [LF]
    ensures line == Flatten(t.before) + JsonText(Respace(t.value)) + (Flatten(TrimRight(t.after)) + [LF])
  {
    hide *;
    var text, after := JsonText(t.value), TrimRight(t.after);
    DocumentIs(t);
    LastIsNoBreak(t.value, 0);
    RespaceText(t.value, 0);
    assert (t.before + text)[|t.before + text| - 1] == text[|text| - 1];
    TrimAfter(t.before + text, t.after);
    FlattenConcat(t.before + text, after);
    FlattenConcat(t.before, text);
    assert Flatten(t.before) + Flatten(text) + Flatten(after) + [LF] ==
           Flatten(t.before) + Flatten(text) + (Flatten(after) + [LF]);
  }

  lemma DocumentIs(t: Document)
    ensures DocumentText(t) == t.before + JsonText(t.value) + t.after
    ensures DocumentOk(t) ==> JsonOk(t.value, 0)
  {
  }

  lemma AcceptedDenotes(s: Bytes)
    ensures Accepts(s) <==> exists v: Value :: Denotes(s, v)
  {
    AcceptsExactlyStrictJson(s);
    if Accepts(s) {
      var t: Document :| DocumentOk(t) && DocumentText(t) == s;
      assert Denotes(s, Meaning(t.value));
    }
  }

  lemma LineDenotesSame(frame: Bytes, line: Bytes)
    requires Accepts(frame) && line == Flatten(TrimRight(frame)) + [LF]
    ensures Accepts(line) && forall v: Value :: Denotes(frame, v) <==> Denotes(line, v)
  {
    AcceptedDenotes(frame);
    var w: Value :| Denotes(frame, w);
    LineKeepsReading(frame, line, w);
    AcceptedDenotes(line);
    forall v: Value ensures Denotes(frame, v) <==> Denotes(line, v) {
      if Denotes(frame, v) {
        LineKeepsReading(frame, line, v);
      }
      if Denotes(line, v) {
        DenotesOneValue(line, v, w);
      }
    }
  }

  lemma TrimRightIs(s: Bytes)
    ensures var n := |TrimRight(s)|;
            && n <= |s| && TrimRight(s) == s[..n] && (forall i :: n <= i < |s| ==> s[i] in {0x0A, 0x0D})
            && (n > 0 ==> s[n - 1] !in {0x0A, 0x0D})
  {
    if |s| > 0 && (s[|s| - 1] == LF || s[|s| - 1] == CR) {
      TrimRightIs(s[..|s| - 1]);
    }
  }

  ghost predicate IsLine(frame: Bytes, line: Bytes) {
    var n := |line| - 1;
    && 0 <= n <= |frame| && line[n] == 0x0A
    && (forall i :: n <= i < |frame| ==> frame[i] in {0x0A, 0x0D})
    && (n > 0 ==> frame[n - 1] !in {0x0A, 0x0D})
    && forall i :: 0 <= i < n ==> line[i] == if frame[i] in {0x0A, 0x0D} then 0x20 else frame[i]
  }

  lemma LineIs(frame: Bytes)
    ensures IsLine(frame, Flatten(TrimRight(frame)) + [LF])
  {
    TrimRightIs(frame);
  }

  // One frame is one line with the same meaning: line breaks at its end go, those inside become spaces, and
  // every other byte stays.
  method WriteFrame(frame: Bytes) returns (line: Bytes)
    ensures IsLine(frame, line)
    ensures |line| > 0 && line[|line| - 1] == LF && OneLine(line[..|line| - 1])
    ensures Accepts(frame) ==> Accepts(line) && forall v: Value :: Denotes(frame, v) <==> Denotes(line, v)
    ensures OneLine(frame) ==> line == frame + [LF]
  {
    var trimmed := TrimRight(frame);
    if LF in trimmed || CR in trimmed {
      trimmed := ReplaceAll(trimmed, LF, SPACE);
      trimmed := ReplaceAll(trimmed, CR, SPACE);
    }
    line := trimmed + [LF];
    assert trimmed == Flatten(TrimRight(frame));
    assert line[..|line| - 1] == trimmed;
    FlattenOneLine(TrimRight(frame));
    LineIs(frame);
    hide IsLine;
    assert OneLine(frame) && |frame| > 0 ==> frame[|frame| - 1] in frame;
    if Accepts(frame) {
      LineDenotesSame(frame, line);
    }
  }
}
