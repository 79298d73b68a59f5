// The pieces insertJSONMember puts into a document and the values it replaces: their text, and what a
// search makes of them.

module JsoncRoundTrip {
  import opened ByteSeqs
  import opened JsonGrammar
  import opened JsoncEdit
  import opened JsoncLaws
  import opened JsoncPaths
  import opened JsoncReads
  import opened JsoncScan
  import opened JsoncTree
  import opened Options

  // The value the caller encodes, at each indentation.
  type ValueAt = Bytes -> Value

  ghost predicate IsIndentation(s: Bytes) {
    forall b <- s :: IsIndent(b)
  }

  // The encoder writes well-formed values.
  ghost predicate Encodes(encode: Encoder, values: ValueAt) {
    forall prefix: Bytes :: IsIndentation(prefix) ==>
      encode(prefix) == ValueText(values(prefix)) && ValueOk(values(prefix))
  }

  // ---------------------------------------------------------------- the inserted pieces

  function BlanksThen(s: Bytes, tail: Body): Body {
    if s == [] then tail else Next(Space(Blank(s[0])), BlanksThen(s[1..], tail))
  }

  function FieldThen(name: Bytes, v: Value, tail: Body): Body {
    Next(Field(name, [], [Blank(SPACE)], v), tail)
  }

  function Front(indent: Bytes, name: Bytes, v: Value, closing: Option<Bytes>, c: Body): Body {
    BlanksThen([LF] + indent, FieldThen(name, v, TailOf(closing, c)))
  }

  function NestedValue(nested: Nested, values: ValueAt, prefix: Bytes): Value {
    match nested
    case Given => values(prefix)
    case Map(key, inner) =>
      Braces(BlanksThen([LF] + (prefix + STEP), FieldThen(key, NestedValue(inner, values, prefix + STEP),
        BlanksThen([LF] + prefix, End))))
  }

  lemma BlankInFront(b: byte, rest: Body, i: nat, name: Bytes)
    requires IsSpace(b)
    ensures var c := Next(Space(Blank(b)), rest);
            && BodyText(c) == [b] + BodyText(rest) && BodyOk(c, true) == BodyOk(rest, true)
            && ScalarEnds(c) == ScalarEnds(rest) && Lookup(c, name) == Lookup(rest, name)
            && Locate(c, i, name) == Locate(rest, i + 1, name)
            && ReadsTo(c, name) == ReadsTo(rest, name) && MisreadAt(c, name) == MisreadAt(rest, name)
  {
  }

  lemma {:induction false} BlanksFacts(s: Bytes, tail: Body, i: nat, name: Bytes)
    requires forall b <- s :: IsSpace(b)
    ensures BodyText(BlanksThen(s, tail)) == s + BodyText(tail)
    ensures BodyOk(BlanksThen(s, tail), true) == BodyOk(tail, true)
    ensures ScalarEnds(BlanksThen(s, tail)) == ScalarEnds(tail)
    ensures Lookup(BlanksThen(s, tail), name) == Lookup(tail, name)
    ensures Locate(BlanksThen(s, tail), i, name) == Locate(tail, i + |s|, name)
    ensures ReadsTo(BlanksThen(s, tail), name) == ReadsTo(tail, name)
    ensures MisreadAt(BlanksThen(s, tail), name) == MisreadAt(tail, name)
  {
    hide *;
    if s == [] {
      NoBlanks(tail);
    } else {
      BlanksFacts(s[1..], tail, i + 1, name);
      BlankInFront(s[0], BlanksThen(s[1..], tail), i, name);
      OneBlank(s, tail);
      assert s == [s[0]] + s[1..];
      assert [s[0]] + (s[1..] + BodyText(tail)) == [s[0]] + s[1..] + BodyText(tail);
    }
  }

  lemma NoBlanks(tail: Body)
    ensures BlanksThen([], tail) == tail
  {
  }

  lemma OneBlank(s: Bytes, tail: Body)
    requires s != []
    ensures BlanksThen(s, tail) == Next(Space(Blank(s[0])), BlanksThen(s[1..], tail))
  {
  }

  lemma FieldFacts(key: Bytes, v: Value, tail: Body, name: Bytes)
    ensures var c := FieldThen(key, v, tail);
            && Lookup(c, name) == (if name == key then Some(v) else Lookup(tail, name))
            && (ReadsTo(c, name) <==> (v.Scalar? ==> ScalarEnds(tail)) && (name == key || ReadsTo(tail, name)))
            && (MisreadAt(c, key) <==> v.Scalar? && !ScalarEnds(tail))
  {
  }

  // The tail of a member that insert puts behind the brace.
  function TailOf(closing: Option<Bytes>, c: Body): Body {
    match closing
    case Some(s) => BlanksThen([LF] + s, c)
    case None => Next(Separator, c)
  }

  lemma TailFacts(closing: Option<Bytes>, c: Body, name: Bytes)
    requires closing.Some? ==> IsIndentation(closing.value)
    ensures var tail := TailOf(closing, c);
            && BodyOk(tail, true) == BodyOk(c, true) && Lookup(tail, name) == Lookup(c, name)
            && ReadsTo(tail, name) == ReadsTo(c, name)
            && ScalarEnds(tail) == (closing.Some? ==> ScalarEnds(c))
  {
    if closing.Some? {
      IndentIsSpace(closing.value);
      BlanksFacts([LF] + closing.value, c, 0, name);
    }
  }

  // What a search makes of the member in front: it is found first, and if it is a scalar it must end.
  lemma FrontFacts(indent: Bytes, key: Bytes, v: Value, closing: Option<Bytes>, c: Body, name: Bytes)
    requires IsIndentation(indent) && (closing.Some? ==> IsIndentation(closing.value))
    ensures var n := Front(indent, key, v, closing, c);
            var ends := v.Scalar? && closing.Some? ==> ScalarEnds(c);
            && Lookup(n, name) == (if name == key then Some(v) else Lookup(c, name))
            && (ReadsTo(n, name) <==> ends && (name == key || ReadsTo(c, name)))
            && (MisreadAt(n, key) <==> !ends)
  {
    hide *;
    FrontIs(indent, key, v, closing, c);
    IndentIsSpace(indent);
    TailFacts(closing, c, name);
    FieldFacts(key, v, TailOf(closing, c), name);
    BlanksFacts([LF] + indent, FieldThen(key, v, TailOf(closing, c)), 0, name);
    BlanksFacts([LF] + indent, FieldThen(key, v, TailOf(closing, c)), 0, key);
  }

  lemma FrontIs(indent: Bytes, key: Bytes, v: Value, closing: Option<Bytes>, c: Body)
    ensures Front(indent, key, v, closing, c) == BlanksThen([LF] + indent, FieldThen(key, v, TailOf(closing, c)))
  {
  }

  lemma FrontOk(indent: Bytes, key: Bytes, v: Value, closing: Option<Bytes>, c: Body)
    requires IsIndentation(indent) && (closing.Some? ==> IsIndentation(closing.value))
    requires CharsOk(key) && ValueOk(v) && BodyOk(c, true)
    ensures BodyOk(Front(indent, key, v, closing, c), true)
  {
    hide *;
    FrontIs(indent, key, v, closing, c);
    IndentIsSpace(indent);
    TailFacts(closing, c, key);
    FieldOk(key, v, TailOf(closing, c));
    BlanksFacts([LF] + indent, FieldThen(key, v, TailOf(closing, c)), 0, key);
  }

  lemma FieldOk(key: Bytes, v: Value, tail: Body)
    requires CharsOk(key) && ValueOk(v) && BodyOk(tail, true)
    ensures BodyOk(FieldThen(key, v, tail), true)
  {
  }

  lemma FieldHead(name: Bytes)
    ensures HeadText(name, [], [Blank(SPACE)]) == KeyText(name) + COLON_SPACE
  {
    assert GapsText([Blank(SPACE)][1..]) == [];
    assert GapsText([Blank(SPACE)]) == [SPACE];
    hide KeyText;
    assert KeyText(name) + ([] + ([COLON] + [SPACE])) == KeyText(name) + COLON_SPACE;
  }

  lemma FieldText(name: Bytes, v: Value, tail: Body)
    ensures BodyText(FieldThen(name, v, tail)) == KeyText(name) + COLON_SPACE + ValueText(v) + BodyText(tail)
  {
    FieldHead(name);
    hide HeadText, KeyText, ValueText;
  }

  lemma IndentIsSpace(s: Bytes)
    requires IsIndentation(s)
    ensures forall b <- [LF] + s :: IsSpace(b)
    ensures IsIndentation(s + STEP)
  {
  }

  lemma {:induction false} NestedIsValue(nested: Nested, encode: Encoder, values: ValueAt, prefix: Bytes)
    requires Encodes(encode, values) && IsIndentation(prefix)
    ensures NestedText(nested, encode, prefix) == ValueText(NestedValue(nested, values, prefix))
    decreases nested
  {
    if nested.Map? {
      var inner := NestedValue(nested.inner, values, prefix + STEP);
      IndentIsSpace(prefix);
      IndentIsSpace(prefix + STEP);
      NestedIsValue(nested.inner, encode, values, prefix + STEP);
      MapText(nested.key, inner, prefix);
    }
  }

  lemma MapText(key: Bytes, inner: Value, prefix: Bytes)
    requires IsIndentation(prefix)
    ensures var field := FieldThen(key, inner, BlanksThen([LF] + prefix, End));
            ValueText(Braces(BlanksThen([LF] + (prefix + STEP), field))) ==
            [LBRACE, LF] + prefix + STEP + KeyText(key) + COLON_SPACE + ValueText(inner) + [LF] + prefix + [RBRACE]
  {
    var end := BlanksThen([LF] + prefix, End);
    var field := FieldThen(key, inner, end);
    assert BodyText(End) == [];
    hide *;
    IndentIsSpace(prefix);
    IndentIsSpace(prefix + STEP);
    BlanksFacts([LF] + prefix, End, 0, []);
    FieldText(key, inner, end);
    BlanksFacts([LF] + (prefix + STEP), field, 0, []);
    BracesText(BlanksThen([LF] + (prefix + STEP), field));
    MapAssembles(prefix, KeyText(key), ValueText(inner));
  }

  lemma MapAssembles(prefix: Bytes, k: Bytes, v: Bytes)
    ensures [LBRACE] + ([LF] + (prefix + STEP) + (k + COLON_SPACE + v + ([LF] + prefix + []))) + [RBRACE] ==
            [LBRACE, LF] + prefix + STEP + k + COLON_SPACE + v + [LF] + prefix + [RBRACE]
  {
  }

  lemma {:induction false} NestedOk(names: seq<Bytes>, encode: Encoder, values: ValueAt, prefix: Bytes)
    requires Encodes(encode, values) && IsIndentation(prefix) && forall n <- names :: CharsOk(n)
    ensures ValueOk(NestedValue(Chain(names), values, prefix))
    decreases |names|
  {
    if names != [] {
      IndentIsSpace(prefix);
      IndentIsSpace(prefix + STEP);
      NestedOk(names[1..], encode, values, prefix + STEP);
      var end := BlanksThen([LF] + prefix, End);
      var field := FieldThen(names[0], NestedValue(Chain(names[1..]), values, prefix + STEP), end);
      BlanksFacts([LF] + prefix, End, 0, []);
      BlanksFacts([LF] + (prefix + STEP), field, 0, []);
    }
  }

  function Indented(prefix: Bytes, levels: nat): Bytes
    decreases levels
  {
    if levels == 0 then prefix else Indented(prefix + STEP, levels - 1)
  }

  lemma {:induction false} IndentedIsIndentation(prefix: Bytes, levels: nat)
    requires IsIndentation(prefix)
    ensures IsIndentation(Indented(prefix, levels))
    decreases levels
  {
    if levels > 0 {
      IndentIsSpace(prefix);
      IndentedIsIndentation(prefix + STEP, levels - 1);
    }
  }

  // The body of the outermost of the single-key maps.
  function MapBody(names: seq<Bytes>, values: ValueAt, prefix: Bytes): Body
    requires names != []
  {
    BlanksThen([LF] + (prefix + STEP),
               FieldThen(names[0], NestedValue(Chain(names[1..]), values, prefix + STEP),
                         BlanksThen([LF] + prefix, End)))
  }

  lemma MapBodyIs(names: seq<Bytes>, values: ValueAt, prefix: Bytes)
    requires names != []
    ensures NestedValue(Chain(names), values, prefix) == Braces(MapBody(names, values, prefix))
  {
    hide BlanksThen, FieldThen;
  }

  lemma MapBodyFacts(names: seq<Bytes>, values: ValueAt, prefix: Bytes, name: Bytes)
    requires names != [] && IsIndentation(prefix)
    ensures var c := MapBody(names, values, prefix);
            && ReadsTo(c, name)
            && Lookup(c, name) ==
               if name == names[0] then Some(NestedValue(Chain(names[1..]), values, prefix + STEP)) else None
  {
    var end := BlanksThen([LF] + prefix, End);
    IndentIsSpace(prefix);
    IndentIsSpace(prefix + STEP);
    BlanksFacts([LF] + prefix, End, 0, name);
    var v := NestedValue(Chain(names[1..]), values, prefix + STEP);
    FieldFacts(names[0], v, end, name);
    BlanksFacts([LF] + (prefix + STEP), FieldThen(names[0], v, end), 0, name);
  }

  lemma NestedEnd(values: ValueAt, prefix: Bytes)
    ensures NestedValue(Chain([]), values, prefix) == values(prefix) && Indented(prefix, 0) == prefix
  {
  }

  // The chain of single-key maps leads to the value.
  lemma {:induction false} NestedLeads(names: seq<Bytes>, values: ValueAt, prefix: Bytes)
    requires IsIndentation(prefix) && names != []
    ensures var v := NestedValue(Chain(names), values, prefix);
            && v.Braces? && Seek(v.body, names) == Holds(values(Indented(prefix, |names|)))
            && Readable(v.body, names)
    decreases |names|
  {
    hide BlanksThen, FieldThen, Lookup, ReadsTo, MapBody, NestedValue;
    MapBodyIs(names, values, prefix);
    MapBodyFacts(names, values, prefix, names[0]);
    IndentIsSpace(prefix);
    if |names| == 1 {
      assert names[1..] == [];
      NestedEnd(values, prefix + STEP);
    } else {
      NestedLeads(names[1..], values, prefix + STEP);
    }
  }

  // It holds nothing else.
  lemma {:induction false} NestedHoldsNothingElse(names: seq<Bytes>, values: ValueAt, prefix: Bytes, other: seq<Bytes>)
    requires IsIndentation(prefix) && names != [] && other != [] && Apart(names, other)
    ensures var v := NestedValue(Chain(names), values, prefix);
            && v.Braces? && Readable(v.body, other)
            && (Seek(v.body, other).NoMember? || Seek(v.body, other).NoContainer?)
    decreases |names|
  {
    hide BlanksThen, FieldThen, Lookup, ReadsTo, MapBody, NestedValue;
    MapBodyIs(names, values, prefix);
    MapBodyFacts(names, values, prefix, other[0]);
    IndentIsSpace(prefix);
    if names[0] == other[0] {
      PrefixTail(names, other);
      PrefixTail(other, names);
      NestedHoldsNothingElse(names[1..], values, prefix + STEP, other[1..]);
    }
  }

  // ---------------------------------------------------------------- replacing a value

  function DropBlanks(b: Body): Body {
    if b.Next? && b.piece.Space? && b.piece.gap.Blank? then DropBlanks(b.rest) else b
  }

  // Replacing a scalar takes the blanks behind it along.
  function Replace(b: Body, name: Bytes, v: Value): Body {
    match b
    case End => End
    case Next(piece, rest) =>
      if IsField(piece, name) then Next(piece.(value := v), if piece.value.Scalar? then DropBlanks(rest) else rest)
      else Next(piece, Replace(rest, name, v))
  }

  lemma {:induction false} DropBlanksFacts(b: Body)
    requires BodyOk(b, true)
    ensures BodyOk(DropBlanks(b), true) && BlankRun(b) <= |BodyText(b)|
    ensures BodyText(DropBlanks(b)) == BodyText(b)[BlankRun(b)..]
    ensures forall k :: 0 <= k < BlankRun(b) ==> IsSpace(BodyText(b)[k])
    ensures ScalarEnds(DropBlanks(b)) == ScalarEnds(b)
    decreases b
  {
    if b.Next? && b.piece.Space? && b.piece.gap.Blank? {
      DropBlanksFacts(b.rest);
      assert BodyText(b) == [b.piece.gap.b] + BodyText(b.rest);
    }
  }

  lemma {:induction false} DropBlanksKeeps(b: Body, name: Bytes)
    ensures Lookup(DropBlanks(b), name) == Lookup(b, name) && ReadsTo(DropBlanks(b), name) == ReadsTo(b, name)
    decreases b
  {
    if b.Next? && b.piece.Space? && b.piece.gap.Blank? {
      DropBlanksKeeps(b.rest, name);
    }
  }

  lemma {:induction false} ReplaceOk(b: Body, name: Bytes, v: Value)
    requires Lookup(b, name).Some? && BodyOk(b, true) && ValueOk(v)
    ensures BodyOk(Replace(b, name, v), true)
    ensures ScalarEnds(Replace(b, name, v)) == ScalarEnds(b)
    decreases b
  {
    hide ValueOk, CharsOk, GapOk, GapsOk;
    if IsField(b.piece, name) {
      if b.piece.value.Scalar? {
        DropBlanksFacts(b.rest);
      }
    } else {
      ReplaceOk(b.rest, name, v);
    }
  }

  // What a search makes of the replaced member: a scalar must end where the old value stood.
  lemma {:induction false} ReplaceFacts(b: Body, name: Bytes, v: Value, other: Bytes)
    requires Lookup(b, name).Some? && BodyOk(b, true) && ValueOk(v) && ReadsTo(b, name)
    ensures var n := Replace(b, name, v);
            var ends := v.Scalar? ==> ScalarEnds(After(b, name));
            && Lookup(n, other) == (if other == name then Some(v) else Lookup(b, other))
            && (ends && ReadsTo(b, other) ==> ReadsTo(n, other))
            && (MisreadAt(n, name) <==> !ends)
    decreases b
  {
    hide ValueOk, PieceOk;
    ReplaceOk(b, name, v);
    if IsField(b.piece, name) {
      ReplaceHeadFacts(b, name, v, other);
    } else {
      ReplaceOk(b.rest, name, v);
      ReplaceFacts(b.rest, name, v, other);
    }
  }

  lemma ReplaceHeadFacts(b: Body, name: Bytes, v: Value, other: Bytes)
    requires b.Next? && IsField(b.piece, name) && BodyOk(b, true) && ValueOk(v) && ReadsTo(b, name)
    ensures var n := Replace(b, name, v);
            var ends := v.Scalar? ==> ScalarEnds(b.rest);
            && Lookup(n, other) == (if other == name then Some(v) else Lookup(b, other))
            && (ends && ReadsTo(b, other) ==> ReadsTo(n, other))
            && (MisreadAt(n, name) <==> !ends)
  {
    DropBlanksKeeps(b.rest, other);
    DropBlanksFacts(b.rest);
    hide DropBlanks, ValueOk, PieceOk, BodyText;
  }

  lemma {:induction false} ReplaceText(raw: Bytes, i: nat, b: Body, name: Bytes, v: Value)
    requires At(raw, i, BodyText(b)) && BodyOk(b, true) && Lookup(b, name).Some?
    ensures var span := Locate(b, i, name).value;
            && span.valueStart <= span.valueEnd <= i + |BodyText(b)| <= |raw|
            && raw[..i] + BodyText(Replace(b, name, v)) + raw[i + |BodyText(b)|..] ==
               raw[..span.valueStart] + ValueText(v) + raw[span.valueEnd..]
    decreases b
  {
    hide *;
    ReplaceCases(b, i, name, v);
    LocatesIffLookup(b, i, name);
    BodyParts(raw, i, b);
    AtFits(raw, i, BodyText(b));
    if IsField(b.piece, name) {
      ReplaceHere(raw, i, b, v);
    } else {
      ReplaceText(raw, i + |PieceText(b.piece)|, b.rest, name, v);
      ReplaceLater(raw, i, b, name, v);
    }
  }

  lemma ReplaceCases(b: Body, i: nat, name: Bytes, v: Value)
    requires Lookup(b, name).Some?
    ensures b.Next?
    ensures if IsField(b.piece, name) then
              var p := b.piece;
              && p.Field?
              && Replace(b, name, v) == Next(p.(value := v), if p.value.Scalar? then DropBlanks(b.rest) else b.rest)
              && var start := i + |HeadText(p.key, p.before, p.after)|;
                 var end := start + |ValueText(p.value)| + if p.value.Scalar? then BlankRun(b.rest) else 0;
              Locate(b, i, name) == Some(Span(i, start, end))
            else
              && Lookup(b.rest, name).Some?
              && Locate(b, i, name) == Locate(b.rest, i + |PieceText(b.piece)|, name)
  {
    hide HeadText, ValueText, PieceText, DropBlanks, BlankRun;
  }

  lemma RestText(rest: Body, scalar: bool)
    requires BodyOk(rest, true)
    ensures BlankRun(rest) <= |BodyText(rest)|
    ensures var run := if scalar then BlankRun(rest) else 0;
            BodyText(if scalar then DropBlanks(rest) else rest) == BodyText(rest)[run..]
  {
    DropBlanksFacts(rest);
  }

  lemma ReplaceHere(raw: Bytes, i: nat, b: Body, v: Value)
    requires At(raw, i, BodyText(b)) && BodyOk(b, true) && b.Next? && b.piece.Field?
    ensures var p := b.piece;
            var rest := if p.value.Scalar? then DropBlanks(b.rest) else b.rest;
            var start := i + |HeadText(p.key, p.before, p.after)|;
            var end := start + |ValueText(p.value)| + if p.value.Scalar? then BlankRun(b.rest) else 0;
            && end <= i + |BodyText(b)| <= |raw|
            && raw[..i] + BodyText(Next(p.(value := v), rest)) + raw[i + |BodyText(b)|..] ==
               raw[..start] + ValueText(v) + raw[end..]
  {
    hide *;
    var p := b.piece;
    var head, v0 := HeadText(p.key, p.before, p.after), ValueText(p.value);
    var run := if p.value.Scalar? then BlankRun(b.rest) else 0;
    BodyParts(raw, i, b);
    FieldParts(raw, i, p);
    RestText(b.rest, p.value.Scalar?);
    FieldBodyText(p, v, if p.value.Scalar? then DropBlanks(b.rest) else b.rest);
    Assemble(raw, i, head, |v0|, BodyText(b.rest), run, ValueText(v));
  }

  // A head stays, `skip` bytes and the first `run` of what follows them make way for a value.
  lemma Assemble(raw: Bytes, i: nat, head: Bytes, skip: nat, rest: Bytes, run: nat, v: Bytes)
    requires At(raw, i, head) && At(raw, i + |head| + skip, rest) && run <= |rest|
    ensures i + |head| + skip + |rest| <= |raw|
    ensures raw[..i] + (head + v + rest[run..]) + raw[i + |head| + skip + |rest|..] ==
            raw[..i + |head|] + v + raw[i + |head| + skip + run..]
  {
    var end := i + |head| + skip + |rest|;
    assert raw[..i] + head == raw[..i + |head|];
    assert rest[run..] + raw[end..] == raw[i + |head| + skip + run..];
    assert raw[..i] + (head + v + rest[run..]) + raw[end..] == raw[..i] + head + v + (rest[run..] + raw[end..]);
  }

  lemma ReplaceLater(raw: Bytes, i: nat, b: Body, name: Bytes, v: Value)
    requires At(raw, i, BodyText(b)) && BodyOk(b, true) && b.Next? && !IsField(b.piece, name)
    ensures i + |BodyText(b)| <= |raw| && i + |PieceText(b.piece)| <= |raw|
    ensures raw[..i] + BodyText(Replace(b, name, v)) + raw[i + |BodyText(b)|..] ==
            raw[..i + |PieceText(b.piece)|] + BodyText(Replace(b.rest, name, v)) + raw[i + |BodyText(b)|..]
  {
    hide *;
    var text := BodyText(Replace(b.rest, name, v));
    ReplaceLaterText(b, name, v);
    BodyParts(raw, i, b);
    AtSplits(raw, i, PieceText(b.piece));
    AtFits(raw, i, BodyText(b));
    assert raw[..i] + (PieceText(b.piece) + text) == raw[..i] + PieceText(b.piece) + text;
  }

  lemma ReplaceLaterText(b: Body, name: Bytes, v: Value)
    requires b.Next? && !IsField(b.piece, name)
    ensures BodyText(Replace(b, name, v)) == PieceText(b.piece) + BodyText(Replace(b.rest, name, v))
  {
    hide PieceText, IsField;
  }
}
