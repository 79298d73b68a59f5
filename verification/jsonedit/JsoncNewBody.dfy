// The document insertJSONMember makes: where the value is, whether it fits, and what stays.

module JsoncNewBody {
  import opened ByteSeqs
  import opened JsonGrammar
  import opened JsoncEdit
  import opened JsoncInsertion
  import opened JsoncLaws
  import opened JsoncPaths
  import opened JsoncReads
  import opened JsoncRoundTrip
  import opened JsoncScan
  import opened JsoncTree
  import opened Options

  // ---------------------------------------------------------------- the inserted value

  // The indentation the value is encoded at.
  function ValueIndent(d: Doc, path: seq<Bytes>): Bytes
    requires DocOk(d) && Reach(d.body, path).Some?
  {
    var k := Reach(d.body, path).value;
    ReachedInner(d.body, path);
    ContainerInDoc(d, path[..k]);
    Indented(MemberIndent(DocText(d), BraceAt(d.body, RootAt(d), path[..k])), |path| - k)
  }

  lemma ValueIndentIs(d: Doc, path: seq<Bytes>)
    requires DocOk(d) && Reach(d.body, path).Some?
    ensures var k := Reach(d.body, path).value;
            && Inner(d.body, path[..k]).Some? && BraceAt(d.body, RootAt(d), path[..k]) < |DocText(d)|
            && ValueIndent(d, path) ==
               Indented(MemberIndent(DocText(d), BraceAt(d.body, RootAt(d), path[..k])), |path| - k)
  {
    hide Inner, BraceAt, DocText, DocOk, BodyOk, Reach, RootAt, MemberIndent, Indented, At, ValueText;
    ReachedInner(d.body, path);
    ContainerInDoc(d, path[..Reach(d.body, path).value]);
  }

  predicate OnlyGaps(b: Body) {
    b.Next? ==> b.piece.Space? && OnlyGaps(b.rest)
  }

  // Whether the value, once inserted, ends where the scanners take it to end. Only a scalar may not: one
  // that replaces a value must find blanks and a separator, or the end, behind that value; one that
  // goes into an empty object must find nothing but blanks in it.
  predicate Fits(b: Body, path: seq<Bytes>, name: Bytes, v: Value) {
    v.Scalar? ==>
      match Inner(b, path)
      case None => true
      case Some(c) =>
        if Lookup(c, name).Some? then ScalarEnds(After(c, name)) else OnlyGaps(c) ==> ScalarEnds(c)
  }

  // The same of the container alone.
  predicate FitsIn(c: Body, whole: bool, name: Bytes, v: Value) {
    v.Scalar? && whole ==>
      if Lookup(c, name).Some? then ScalarEnds(After(c, name)) else OnlyGaps(c) ==> ScalarEnds(c)
  }

  lemma {:induction false} SpaceEndsAtBrace(raw: Bytes, i: nat, c: Body)
    requires At(raw, i, BodyText(c)) && BodyOk(c, true)
    requires i + |BodyText(c)| < |raw| && raw[i + |BodyText(c)|] == RBRACE
    ensures SkipSpace(raw, i) < |raw| && (raw[SkipSpace(raw, i)] == RBRACE <==> OnlyGaps(c))
    decreases c
  {
    hide *;
    if c.End? {
      EndsAtOnce(raw, i);
    } else {
      BodyParts(raw, i, c);
      PieceIsThere(c.piece);
      AtIndex(raw, i, PieceText(c.piece), 0);
      PieceStarts(c);
      if c.piece.Space? {
        SpaceParts(c.piece);
        GapAt(raw, i, c.piece.gap);
        SpaceEndsAtBrace(raw, i + |PieceText(c.piece)|, c.rest);
      } else {
        StopsHere(raw, i);
      }
    }
  }

  lemma EndsAtOnce(raw: Bytes, i: nat)
    requires i + |BodyText(End)| < |raw| && raw[i + |BodyText(End)|] == RBRACE
    ensures SkipSpace(raw, i) == i && raw[i] == RBRACE && OnlyGaps(End)
  {
  }

  lemma PieceStarts(c: Body)
    requires c.Next? && PieceOk(c.piece, true) && PieceText(c.piece) != []
    ensures if c.piece.Space? then OnlyGaps(c) == OnlyGaps(c.rest)
            else !OnlyGaps(c) && PieceText(c.piece)[0] in {COMMA, QUOTE}
  {
  }

  lemma SpaceParts(p: Piece)
    requires p.Space? && PieceOk(p, true)
    ensures PieceText(p) == GapText(p.gap) && GapOk(p.gap)
  {
  }

  lemma StopsHere(raw: Bytes, i: nat)
    requires i < |raw| && raw[i] in {COMMA, QUOTE}
    ensures SkipSpace(raw, i) == i && raw[i] != RBRACE
  {
  }

  // An object closes at once if and only if it holds only gaps.
  lemma EmptyIffClosesAtOnce(raw: Bytes, brace: nat, c: Body)
    requires At(raw, brace, ValueText(Braces(c))) && BodyOk(c, true) && brace < |raw|
    ensures ClosesAtOnce(raw, brace) <==> OnlyGaps(c)
  {
    BodyInside(raw, brace, Braces(c));
    hide At, BodyText, ValueText, BodyOk, SkipSpace, OnlyGaps;
    SpaceEndsAtBrace(raw, brace + 1, c);
  }

  // ---------------------------------------------------------------- the new body of the container

  lemma GivenIs(values: ValueAt, indent: Bytes)
    ensures NestedValue(Given, values, indent) == values(indent) && Indented(indent, 0) == indent
  {
  }

  lemma EncodesOk(encode: Encoder, values: ValueAt, prefix: Bytes)
    requires Encodes(encode, values) && IsIndentation(prefix)
    ensures ValueOk(values(prefix))
  {
  }

  // What the proofs below know of the container and its place in the text.
  ghost predicate Holder(raw: Bytes, brace: nat, c: Body, path: seq<Bytes>, k: nat, name: Bytes,
                         encode: Encoder, values: ValueAt) {
    && brace < |raw| && k <= |path| && BodyOk(c, true) && At(raw, brace, ValueText(Braces(c)))
    && Encodes(encode, values) && (k < |path| ==> Lookup(c, path[k]).None?)
    && ReadsTo(c, if k < |path| then path[k] else name)
  }

  // The value under the key that goes in front.
  function FrontValue(path: seq<Bytes>, k: nat, name: Bytes, values: ValueAt, indent: Bytes): Value
    requires k <= |path|
  {
    NestedValue(MissingMaps(path, k, name), values, indent)
  }

  lemma NewBodyCases(raw: Bytes, brace: nat, c: Body, path: seq<Bytes>, k: nat, name: Bytes,
                     encode: Encoder, values: ValueAt)
    requires Holder(raw, brace, c, path, k, name, encode, values)
    ensures var indent, closing := MemberIndent(raw, brace), Closing(raw, brace);
            && IsIndentation(indent) && (closing.Some? ==> IsIndentation(closing.value))
            && (closing.Some? <==> OnlyGaps(c)) && ValueOk(values(indent))
            && NewBody(raw, brace, c, path, k, name, values) ==
               if k == |path| && Lookup(c, name).Some? then Replace(c, name, values(indent))
               else
                 Front(indent, if k < |path| then path[k] else name, FrontValue(path, k, name, values, indent),
                       closing, c)
  {
    IndentsAreIndentation(raw, brace);
    EmptyIffClosesAtOnce(raw, brace, c);
    EncodesOk(encode, values, MemberIndent(raw, brace));
    hide At, BodyText, ValueText, BodyOk, ClosesAtOnce, BraceIndent, MemberIndent, Front, Replace, NestedValue;
  }

  lemma FrontValueIs(path: seq<Bytes>, k: nat, name: Bytes, values: ValueAt, indent: Bytes)
    requires k <= |path| && IsIndentation(indent)
    ensures var v := FrontValue(path, k, name, values, indent);
            if k == |path| then v == values(indent)
            else
              var names := path[k + 1..] + [name];
              && v.Braces? && v == NestedValue(Chain(names), values, indent)
              && Seek(v.body, names) == Holds(values(Indented(indent, |path| - k))) && Readable(v.body, names)
  {
    hide NestedValue, Chain, Seek, Readable;
    if k == |path| {
      GivenIs(values, indent);
    } else {
      NestedLeads(path[k + 1..] + [name], values, indent);
    }
  }

  // The new body leads along the rest of the path to the value, and can be read that far if and only
  // if the value fits.
  lemma NewBodyLeads(raw: Bytes, brace: nat, c: Body, path: seq<Bytes>, k: nat, name: Bytes,
                     encode: Encoder, values: ValueAt)
    requires Holder(raw, brace, c, path, k, name, encode, values)
    ensures var n, v := NewBody(raw, brace, c, path, k, name, values), values(MemberIndent(raw, brace));
            && Seek(n, path[k..] + [name]) == Holds(values(Indented(MemberIndent(raw, brace), |path| - k)))
            && (FitsIn(c, k == |path|, name, v) ==> Readable(n, path[k..] + [name]))
            && (!FitsIn(c, k == |path|, name, v) ==> k == |path| && v.Scalar? && MisreadAt(n, name))
  {
    var indent, closing := MemberIndent(raw, brace), Closing(raw, brace);
    var v := FrontValue(path, k, name, values, indent);
    var names := path[k..] + [name];
    NewBodyCases(raw, brace, c, path, k, name, encode, values);
    FrontValueIs(path, k, name, values, indent);
    hide BlanksThen, FieldThen, Closing, MemberIndent, Front, Replace, BodyOk, FrontValue, NewBody, OnlyGaps;
    hide At, ValueText, ScalarEnds, After, ReadsTo, Lookup, MisreadAt, Indented;
    if k == |path| {
      assert names == [name];
      GivenIs(values, indent);
      if Lookup(c, name).Some? {
        ReplaceFacts(c, name, values(indent), name);
      } else {
        FrontFacts(indent, name, v, closing, c, name);
      }
    } else {
      FrontFacts(indent, path[k], v, closing, c, path[k]);
      assert names[0] == path[k] && names[1..] == path[k + 1..] + [name];
    }
  }

  // Names the new body does not lead along are found as they were.
  lemma NewBodyKeeps(raw: Bytes, brace: nat, c: Body, path: seq<Bytes>, k: nat, name: Bytes,
                     encode: Encoder, values: ValueAt, others: seq<Bytes>)
    requires Holder(raw, brace, c, path, k, name, encode, values)
    requires FitsIn(c, k == |path|, name, values(MemberIndent(raw, brace)))
    requires others != [] && Apart(path[k..] + [name], others)
    ensures SameBehind(c, NewBody(raw, brace, c, path, k, name, values), others)
  {
    var indent, closing := MemberIndent(raw, brace), Closing(raw, brace);
    var v := FrontValue(path, k, name, values, indent);
    var names := path[k..] + [name];
    NewBodyCases(raw, brace, c, path, k, name, encode, values);
    FrontValueIs(path, k, name, values, indent);
    hide BlanksThen, FieldThen, Closing, MemberIndent, Front, Replace, BodyOk, FrontValue, NewBody, OnlyGaps;
    hide At, ValueText, ScalarEnds, After, ReadsTo, Lookup, MisreadAt, Indented, IsIndentation;
    if k == |path| && Lookup(c, name).Some? {
      assert names == [name];
      ReplaceFacts(c, name, values(indent), others[0]);
      NotThePrefix(name, others);
    } else {
      FrontFacts(indent, names[0], v, closing, c, others[0]);
      if others[0] == names[0] {
        PrefixTail(names, others);
        PrefixTail(others, names);
        assert names[1..] == if k == |path| then [] else path[k + 1..] + [name];
        NestedHoldsNothingElse(path[k + 1..] + [name], values, indent, others[1..]);
      }
    }
  }

  lemma NewBodyOk(raw: Bytes, brace: nat, c: Body, path: seq<Bytes>, k: nat, name: Bytes,
                  encode: Encoder, values: ValueAt)
    requires Holder(raw, brace, c, path, k, name, encode, values) && NamesOk(path, name)
    ensures BodyOk(NewBody(raw, brace, c, path, k, name, values), true)
  {
    var indent := MemberIndent(raw, brace);
    NewBodyCases(raw, brace, c, path, k, name, encode, values);
    hide BlanksThen, FieldThen, Closing, MemberIndent, Front, Replace, BodyOk, NewBody, OnlyGaps, ReadsTo;
    hide Chain, NestedValue, ValueOk, Lookup, At, ValueText;
    if k == |path| && Lookup(c, name).Some? {
      ReplaceOk(c, name, values(indent));
    } else {
      if k < |path| {
        NestedOk(path[k + 1..] + [name], encode, values, indent);
      } else {
        GivenIs(values, indent);
      }
      FrontOk(indent, if k < |path| then path[k] else name, FrontValue(path, k, name, values, indent),
              Closing(raw, brace), c);
    }
  }

  // ---------------------------------------------------------------- the new document

  // What the theorems ask: a well-formed document that can be read along the path to the name, which
  // leads through objects only, and an encoder of well-formed values.
  ghost predicate Accepts(d: Doc, path: seq<Bytes>, name: Bytes, encode: Encoder, values: ValueAt) {
    DocOk(d) && Readable(d.body, path + [name]) && Reach(d.body, path).Some? && Encodes(encode, values)
  }

  lemma AcceptsParts(d: Doc, path: seq<Bytes>, name: Bytes, encode: Encoder, values: ValueAt)
    requires Accepts(d, path, name, encode, values)
    ensures DocOk(d) && Readable(d.body, path + [name]) && Reach(d.body, path).Some? && Encodes(encode, values)
    ensures Reach(d.body, path).value <= |path|
  {
  }

  // The container of an accepted document, and the document made of its new body.
  lemma NewDocument(d: Doc, path: seq<Bytes>, name: Bytes, encode: Encoder, values: ValueAt)
    requires Accepts(d, path, name, encode, values)
    ensures var k := Reach(d.body, path).value;
            && k <= |path| && Inner(d.body, path[..k]).Some? && path[..k] + path[k..] == path
            && var raw, brace, c := DocText(d), BraceAt(d.body, RootAt(d), path[..k]), Inner(d.body, path[..k]).value;
            && brace < |raw| && Holder(raw, brace, c, path, k, name, encode, values)
            && (Fits(d.body, path, name, values(MemberIndent(raw, brace))) <==>
                  FitsIn(c, k == |path|, name, values(MemberIndent(raw, brace))))
            && ValueIndent(d, path) == Indented(MemberIndent(raw, brace), |path| - k)
            && Inserted(d, path, name, values) ==
               Some(d.(body := Rebuild(d.body, path[..k], NewBody(raw, brace, c, path, k, name, values))))
  {
    hide *;
    AcceptsParts(d, path, name, encode, values);
    var k := Reach(d.body, path).value;
    ReachedInner(d.body, path);
    ContainerInDoc(d, path[..k]);
    InsertedIs(d, path, name, values);
    ValueIndentIs(d, path);
    NotInside(d.body, path);
    assert path[..k] + path[k..] == path;
    var raw, brace, c := DocText(d), BraceAt(d.body, RootAt(d), path[..k]), Inner(d.body, path[..k]).value;
    FitsWhere(d.body, path, name, values(MemberIndent(raw, brace)));
    ReadableToHolder(d.body, path, k, name);
    HolderIs(raw, brace, c, path, k, name, encode, values);
  }

  lemma FitsWhere(b: Body, path: seq<Bytes>, name: Bytes, v: Value)
    requires Reach(b, path).Some? && Reach(b, path).value <= |path|
    requires Inner(b, path).Some? <==> Reach(b, path) == Some(|path|)
    requires Inner(b, path[..Reach(b, path).value]).Some?
    ensures var k := Reach(b, path).value;
            Fits(b, path, name, v) <==> FitsIn(Inner(b, path[..k]).value, k == |path|, name, v)
  {
    hide Inner, Lookup, ScalarEnds, After, Reach;
    assert path[..|path|] == path;
  }

  lemma ReadableToHolder(b: Body, path: seq<Bytes>, k: nat, name: Bytes)
    requires k <= |path| && Inner(b, path[..k]).Some? && Readable(b, path + [name])
    ensures ReadsTo(Inner(b, path[..k]).value, if k < |path| then path[k] else name)
  {
    hide Inner, ReadsTo;
    var key := if k < |path| then path[k] else name;
    assert path[..k] + [key] + (path + [name])[k + 1..] == path + [name];
    ReadablePrefix(b, path[..k] + [key], (path + [name])[k + 1..]);
    LastName(b, path[..k], key);
  }

  lemma HolderIs(raw: Bytes, brace: nat, c: Body, path: seq<Bytes>, k: nat, name: Bytes,
                 encode: Encoder, values: ValueAt)
    ensures Holder(raw, brace, c, path, k, name, encode, values) <==>
              && brace < |raw| && k <= |path| && BodyOk(c, true) && At(raw, brace, ValueText(Braces(c)))
              && Encodes(encode, values) && (k < |path| ==> Lookup(c, path[k]).None?)
              && ReadsTo(c, if k < |path| then path[k] else name)
  {
    hide BodyOk, At, Encodes, Lookup, ReadsTo;
  }

  // The value is where the path leads, and can be read there if and only if it fits.
  lemma InsertedLeads(d: Doc, path: seq<Bytes>, name: Bytes, encode: Encoder, values: ValueAt)
    requires Accepts(d, path, name, encode, values)
    ensures var e, v := Inserted(d, path, name, values), values(ValueIndent(d, path));
            && e.Some? && e.value.before == d.before
            && Seek(e.value.body, path + [name]) == Holds(v)
            && (Fits(d.body, path, name, v) ==> Readable(e.value.body, path + [name]))
  {
    hide *;
    AcceptsParts(d, path, name, encode, values);
    NewDocument(d, path, name, encode, values);
    var k := Reach(d.body, path).value;
    var raw, brace, c := DocText(d), BraceAt(d.body, RootAt(d), path[..k]), Inner(d.body, path[..k]).value;
    var n, names := NewBody(raw, brace, c, path, k, name, values), path[k..] + [name];
    NewBodyLeads(raw, brace, c, path, k, name, encode, values);
    RebuildLeads(d.body, path[..k], n, names);
    assert path[..k] + names == path + [name];
    ReadablePrefix(d.body, path[..k], path[k..] + [name]);
    FitsAtIndent(d, path, name, values, k, MemberIndent(raw, brace));
  }

  // Only a value of a container that exists can fail to fit, and that one is encoded at the
  // container's own indentation.
  lemma FitsAtIndent(d: Doc, path: seq<Bytes>, name: Bytes, values: ValueAt, k: nat, indent: Bytes)
    requires DocOk(d) && Reach(d.body, path) == Some(k) && k <= |path|
    requires ValueIndent(d, path) == Indented(indent, |path| - k)
    ensures Fits(d.body, path, name, values(ValueIndent(d, path))) <==> Fits(d.body, path, name, values(indent))
  {
    NotInside(d.body, path);
    hide Inner, Lookup, ScalarEnds, After, Reach, OnlyGaps, DocOk, ValueIndent;
  }

  lemma InsertedOk(d: Doc, path: seq<Bytes>, name: Bytes, encode: Encoder, values: ValueAt)
    requires Accepts(d, path, name, encode, values) && NamesOk(path, name)
    ensures Inserted(d, path, name, values).Some? && DocOk(Inserted(d, path, name, values).value)
  {
    hide *;
    AcceptsParts(d, path, name, encode, values);
    NewDocument(d, path, name, encode, values);
    var k := Reach(d.body, path).value;
    var raw, brace, c := DocText(d), BraceAt(d.body, RootAt(d), path[..k]), Inner(d.body, path[..k]).value;
    NewBodyOk(raw, brace, c, path, k, name, encode, values);
    RebuiltOk(d, path[..k], NewBody(raw, brace, c, path, k, name, values));
  }

  lemma InsertedKeeps(d: Doc, path: seq<Bytes>, name: Bytes, encode: Encoder, values: ValueAt, others: seq<Bytes>)
    requires Accepts(d, path, name, encode, values) && Fits(d.body, path, name, values(ValueIndent(d, path)))
    requires others != [] && Apart(path + [name], others)
    ensures Inserted(d, path, name, values).Some?
    ensures SameBehind(d.body, Inserted(d, path, name, values).value.body, others)
  {
    hide *;
    AcceptsParts(d, path, name, encode, values);
    NewDocument(d, path, name, encode, values);
    var k := Reach(d.body, path).value;
    var raw, brace, c := DocText(d), BraceAt(d.body, RootAt(d), path[..k]), Inner(d.body, path[..k]).value;
    var n := NewBody(raw, brace, c, path, k, name, values);
    FitsAtIndent(d, path, name, values, k, MemberIndent(raw, brace));
    assert path[..k] + (path[k..] + [name]) == path + [name];
    ApartBehind(path[..k], path[k..] + [name], others);
    if path[..k] <= others {
      NewBodyKeeps(raw, brace, c, path, k, name, encode, values, others[k..]);
    }
    RebuildKeeps(d.body, path[..k], n, others);
  }

  // ---------------------------------------------------------------- the names that are written

  // json.Encoder writes every key as a string.
  ghost predicate WritesKeys(key: KeyEncoder) {
    forall n: Bytes :: CharsOk(key(n))
  }

  // The names the value stands under after the insert.
  function Written(b: Body, path: seq<Bytes>, name: Bytes, key: KeyEncoder): seq<Bytes>
    requires Reach(b, path).Some?
  {
    var k := Reach(b, path).value;
    PathWritten(path, k, key) + [NameWritten(path, k, name, key)]
  }

  // The first of them that is new, or holds the value replaced: the one insertJSONMember writes itself,
  // as it is.
  function FirstName(b: Body, path: seq<Bytes>, name: Bytes): Bytes
    requires Reach(b, path).Some?
  {
    var k := Reach(b, path).value;
    if k < |path| then path[k] else name
  }

  lemma {:induction false} MemberNameOk(b: Body, name: Bytes)
    requires BodyOk(b, true) && Lookup(b, name).Some?
    ensures CharsOk(name)
    decreases b
  {
    hide CharsOk;
    if !IsField(b.piece, name) {
      MemberNameOk(b.rest, name);
    }
  }

  lemma {:induction false} PathIsChars(b: Body, path: seq<Bytes>)
    requires Reach(b, path).Some? && BodyOk(b, true)
    ensures forall n <- path[..Reach(b, path).value] :: CharsOk(n)
    decreases |path|
  {
    hide CharsOk, BodyOk, Lookup;
    if path != [] && Lookup(b, path[0]).Some? {
      MemberNameOk(b, path[0]);
      LookupOk(b, path[0]);
      BracesOk(Lookup(b, path[0]).value);
      PathIsChars(Lookup(b, path[0]).value.body, path[1..]);
      var k := Reach(b, path).value;
      assert path[..k] == [path[0]] + path[1..][..k - 1];
    }
  }

  lemma WrittenOk(b: Body, path: seq<Bytes>, name: Bytes, key: KeyEncoder)
    requires Reach(b, path).Some? && BodyOk(b, true) && WritesKeys(key)
    ensures var k := Reach(b, path).value;
            NamesOk(PathWritten(path, k, key), NameWritten(path, k, name, key)) <==> CharsOk(FirstName(b, path, name))
  {
    hide CharsOk, BodyOk, Reach;
    PathIsChars(b, path);
    var k := Reach(b, path).value;
    var p := PathWritten(path, k, key);
    if k < |path| {
      assert p[k] == path[k] && p[k] in p;
      assert p == path[..k] + [path[k]] + EncodedKeys(path[k + 1..], key);
    } else {
      assert path[..k] == path;
    }
  }

  // An accepted document accepts the names as they are written, and is edited as they say.
  lemma WrittenAccepts(d: Doc, path: seq<Bytes>, name: Bytes, encode: Encoder, key: KeyEncoder, values: ValueAt)
    requires Accepts(d, path, name, encode, values)
    ensures var k := Reach(d.body, path).value;
            var p, n, v := PathWritten(path, k, key), NameWritten(path, k, name, key), values(ValueIndent(d, path));
            && Accepts(d, p, n, encode, values) && p + [n] == Written(d.body, path, name, key)
            && Edited(d, path, name, key, values) == Inserted(d, p, n, values)
            && ValueIndent(d, p) == ValueIndent(d, path)
            && (Fits(d.body, p, n, v) <==> Fits(d.body, path, name, v))
            && (WritesKeys(key) ==> (NamesOk(p, n) <==> CharsOk(FirstName(d.body, path, name))))
  {
    hide *;
    AcceptsParts(d, path, name, encode, values);
    var k := Reach(d.body, path).value;
    var p, n := PathWritten(path, k, key), NameWritten(path, k, name, key);
    ReachWritten(d.body, path, name, key);
    WrittenNames(path, k, name, key);
    EditedIs(d, path, name, key, values);
    WrittenIs(d.body, path, name, key);
    ValueIndentIs(d, path);
    ValueIndentIs(d, p);
    IsAccepted(d, p, n, encode, values);
    FitsWritten(d.body, path, p, name, n, values(ValueIndent(d, path)));
    DocIs(d);
    if WritesKeys(key) {
      WrittenOk(d.body, path, name, key);
    }
  }

  lemma WrittenIs(b: Body, path: seq<Bytes>, name: Bytes, key: KeyEncoder)
    requires Reach(b, path).Some?
    ensures var k := Reach(b, path).value;
            Written(b, path, name, key) == PathWritten(path, k, key) + [NameWritten(path, k, name, key)]
  {
    hide Reach, PathWritten, NameWritten;
  }

  lemma IsAccepted(d: Doc, path: seq<Bytes>, name: Bytes, encode: Encoder, values: ValueAt)
    requires DocOk(d) && Readable(d.body, path + [name]) && Reach(d.body, path).Some? && Encodes(encode, values)
    ensures Accepts(d, path, name, encode, values)
  {
    hide DocOk, Readable, Reach, Encodes;
  }

  lemma FitsWritten(b: Body, path: seq<Bytes>, p: seq<Bytes>, name: Bytes, n: Bytes, v: Value)
    requires Reach(b, path).Some? && Reach(b, p) == Reach(b, path) && |p| == |path|
    requires Reach(b, path) == Some(|path|) ==> p == path && n == name
    ensures Fits(b, p, n, v) <==> Fits(b, path, name, v)
  {
    NotInside(b, path);
    NotInside(b, p);
    hide Inner, Lookup, ScalarEnds, After, Reach, OnlyGaps;
  }
}
