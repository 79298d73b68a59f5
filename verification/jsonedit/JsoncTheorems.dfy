// Insert then find, insert then remove, and the documents that are misread.

module JsoncTheorems {
  import opened ByteSeqs
  import opened JsonGrammar
  import opened JsoncEdit
  import opened JsoncInsertion
  import opened JsoncLaws
  import opened JsoncNewBody
  import opened JsoncPaths
  import opened JsoncReads
  import opened JsoncRoundTrip
  import opened JsoncScan
  import opened JsoncTree
  import opened Options
  import opened Results

  // ---------------------------------------------------------------- insert, then find

  lemma DocumentIsItself(d: Doc)
    requires DocOk(d)
    ensures OrEmptyObject(DocText(d)) == DocText(d)
  {
    RootFound(d);
    NotBlank(DocText(d), RootAt(d));
  }

  lemma SameDocument(a: Bytes, b: Bytes, path: seq<Bytes>, name: Bytes, encode: Encoder, key: KeyEncoder)
    requires OrEmptyObject(a) == OrEmptyObject(b)
    ensures Insert(a, path, name, encode, key) == Insert(b, path, name, encode, key)
  {
  }

  // An accepted document is edited as its tree is.
  lemma EditsAccepted(given: Bytes, d: Doc, path: seq<Bytes>, name: Bytes, encode: Encoder, key: KeyEncoder,
                      values: ValueAt)
    requires OrEmptyObject(given) == DocText(d) && Accepts(d, path, name, encode, values)
    ensures Edited(d, path, name, key, values).Some?
    ensures Insert(given, path, name, encode, key) == Ok(DocText(Edited(d, path, name, key, values).value))
  {
    hide *;
    AcceptsParts(d, path, name, encode, values);
    WrittenAccepts(d, path, name, encode, key, values);
    DocumentIsItself(d);
    InsertEditsTree(d, path, name, encode, key, values);
    var k := Reach(d.body, path).value;
    NewDocument(d, PathWritten(path, k, key), NameWritten(path, k, name, key), encode, values);
    SameDocument(given, DocText(d), path, name, encode, key);
  }

  lemma {:induction false} NamedSpan(raw: Bytes, i: nat, end: nat, name: Bytes)
    requires end <= |raw|
    requires FindFrom(raw, i, end, KeyText(name)).Ok? && FindFrom(raw, i, end, KeyText(name)).value.Some?
    ensures CharsOk(name)
    decreases |raw| - i
  {
    hide SkipSpace, ValueEnd, QuoteEnd, KeyText, CharsOk;
    if IsSpace(raw[i]) || raw[i] == COMMA {
      NamedSpan(raw, i + 1, end, name);
    } else if CommentAt(raw, i) {
      NamedSpan(raw, SkipSpace(raw, i), end, name);
    } else {
      var keyEnd := QuoteEnd(raw, i + 1).value;
      if raw[i..keyEnd] == KeyText(name) {
        KeyIsChars(raw, i, keyEnd, name);
      } else {
        NamedSpan(raw, ValueEnd(raw, SkipSpace(raw, SkipSpace(raw, keyEnd) + 1)).value, end, name);
      }
    }
  }

  lemma KeyIsChars(raw: Bytes, i: nat, keyEnd: nat, name: Bytes)
    requires i < |raw| && QuoteEnd(raw, i + 1) == Some(keyEnd) && keyEnd <= |raw| && raw[i..keyEnd] == KeyText(name)
    ensures CharsOk(name)
  {
    var chars := name + [QUOTE];
    assert raw[i + 1..keyEnd] == raw[i..keyEnd][1..] == KeyText(name)[1..] == chars;
    QuoteEndInside(raw, i + 1, chars, 0);
  }

  // A literal that ends where a stretch of the text ends, ends there in the stretch alone.
  lemma {:induction false} QuoteEndInside(raw: Bytes, i: nat, s: Bytes, k: nat)
    requires At(raw, i, s) && k <= |s| && QuoteEnd(raw, i + k) == Some(i + |s|)
    ensures QuoteEnd(s, k) == Some(|s|)
    decreases |s| - k
  {
    if k < |s| {
      AtIndex(raw, i, s, k);
      if s[k] == BACKSLASH {
        QuoteEndInside(raw, i, s, k + 2);
      } else if s[k] != QUOTE {
        QuoteEndInside(raw, i, s, k + 1);
      }
    }
  }

  lemma {:induction false} ResolvedNamesOk(raw: Bytes, brace: nat, path: seq<Bytes>, depth: nat)
    requires brace < |raw| && depth <= |path|
    requires ResolveFrom(raw, brace, path, depth).Ok? && ResolveFrom(raw, brace, path, depth).value.depth == |path|
    ensures forall n <- path[depth..] :: CharsOk(n)
    decreases |path| - depth
  {
    hide Find, CharsOk;
    if depth < |path| {
      FoundNameOk(raw, brace, path[depth]);
      ResolvedNamesOk(raw, Find(raw, brace, path[depth]).value.value.valueStart, path, depth + 1);
      assert path[depth..] == [path[depth]] + path[depth + 1..];
    }
  }

  lemma FoundNameOk(raw: Bytes, brace: nat, name: Bytes)
    requires Find(raw, brace, name).Ok? && Find(raw, brace, name).value.Some?
    ensures CharsOk(name)
  {
    hide FindFrom, Close, CharsOk;
    NamedSpan(raw, brace + 1, Close(raw, brace, LBRACE, RBRACE, 0).value, name);
  }

  // Only names that are string bodies are ever found.
  lemma FoundNamesAreOk(raw: Bytes, path: seq<Bytes>, name: Bytes)
    requires FindAt(raw, path, name).Some?
    ensures NamesOk(path, name)
  {
    hide Find, ResolveFrom, CharsOk, SkipSpace;
    var root := SkipSpace(raw, 0);
    ResolvedNamesOk(raw, root, path, 0);
    FoundNameOk(raw, ResolveFrom(raw, root, path, 0).value.brace, name);
    assert path[0..] == path;
  }

  // A value that does not fit is not found: the span runs into what follows it.
  lemma UnfitIsNotFound(d: Doc, path: seq<Bytes>, name: Bytes, encode: Encoder, values: ValueAt)
    requires Accepts(d, path, name, encode, values) && NamesOk(path, name)
    requires !Fits(d.body, path, name, values(ValueIndent(d, path)))
    ensures Inserted(d, path, name, values).Some?
    ensures !Finds(DocText(Inserted(d, path, name, values).value), path, name, values(ValueIndent(d, path)))
  {
    hide *;
    AcceptsParts(d, path, name, encode, values);
    NewDocument(d, path, name, encode, values);
    InsertedOk(d, path, name, encode, values);
    var k := Reach(d.body, path).value;
    var raw, brace, c := DocText(d), BraceAt(d.body, RootAt(d), path[..k]), Inner(d.body, path[..k]).value;
    var n, v := NewBody(raw, brace, c, path, k, name, values), values(ValueIndent(d, path));
    FitsAtIndent(d, path, name, values, k, MemberIndent(raw, brace));
    NewBodyLeads(raw, brace, c, path, k, name, encode, values);
    assert path[..k] == path && path[k..] + [name] == [name];
    SeekOne(n, name);
    IndentedHere(MemberIndent(raw, brace));
    ReadablePrefix(d.body, path, [name]);
    MisreadInside(d, path, n, name, v);
  }

  lemma SeekOne(b: Body, name: Bytes)
    ensures Seek(b, [name]) == match Lookup(b, name) case Some(v) => Holds(v) case None => NoMember
  {
  }

  lemma IndentedHere(indent: Bytes)
    ensures Indented(indent, 0) == indent
  {
  }

  lemma WrittenIsFound(d: Doc, path: seq<Bytes>, name: Bytes, encode: Encoder, values: ValueAt)
    requires Accepts(d, path, name, encode, values)
    ensures Inserted(d, path, name, values).Some?
    ensures var e, v := Inserted(d, path, name, values).value, values(ValueIndent(d, path));
            Finds(DocText(e), path, name, v) <==> NamesOk(path, name) && Fits(d.body, path, name, v)
  {
    hide *;
    AcceptsParts(d, path, name, encode, values);
    InsertedLeads(d, path, name, encode, values);
    var e, v := Inserted(d, path, name, values).value, values(ValueIndent(d, path));
    FindsIs(DocText(e), path, name, v);
    if NamesOk(path, name) {
      InsertedOk(d, path, name, encode, values);
      if Fits(d.body, path, name, v) {
        FindsWhatIsThere(e, path, name);
        ShowsIs(DocText(e), path, name, Holds(v));
      } else {
        UnfitIsNotFound(d, path, name, encode, values);
      }
    } else if Finds(DocText(e), path, name, v) {
      FoundNamesAreOk(DocText(e), path, name);
    }
  }

  // What was inserted is found under the names that were written, if and only if the first of them is a
  // string body and the value fits: resolving the path in the edited text leads to an object, and
  // finding the name in it finds exactly the encoded value. It is found under the names that were given
  // if and only if, moreover, these were written as they are.
  lemma InsertThenFind(given: Bytes, d: Doc, path: seq<Bytes>, name: Bytes, encode: Encoder, key: KeyEncoder,
                       values: ValueAt)
    requires OrEmptyObject(given) == DocText(d) && Accepts(d, path, name, encode, values) && WritesKeys(key)
    ensures var k, edited := Reach(d.body, path).value, Insert(given, path, name, encode, key);
            var p, n, v := PathWritten(path, k, key), NameWritten(path, k, name, key), values(ValueIndent(d, path));
            var fits := CharsOk(FirstName(d.body, path, name)) && Fits(d.body, path, name, v);
            && edited.Ok? && (Finds(edited.value, p, n, v) <==> fits)
            && (Finds(edited.value, path, name, v) <==> fits && Written(d.body, path, name, key) == path + [name])
  {
    hide *;
    AcceptsParts(d, path, name, encode, values);
    EditsAccepted(given, d, path, name, encode, key, values);
    WrittenAccepts(d, path, name, encode, key, values);
    var k := Reach(d.body, path).value;
    var p, n := PathWritten(path, k, key), NameWritten(path, k, name, key);
    WrittenIsFound(d, p, n, encode, values);
    WrittenNames(path, k, name, key);
    if p + [n] == path + [name] {
      assert (p + [n])[..|path|] == p && (path + [name])[..|path|] == path;
      assert (p + [n])[|path|] == n && (path + [name])[|path|] == name;
    } else {
      GivenIsNotFound(d, path, name, encode, key, values);
    }
  }

  // A name that the encoder changed is not found as it was given.
  lemma GivenIsNotFound(d: Doc, path: seq<Bytes>, name: Bytes, encode: Encoder, key: KeyEncoder, values: ValueAt)
    requires Accepts(d, path, name, encode, values) && WritesKeys(key)
    requires Written(d.body, path, name, key) != path + [name]
    ensures Edited(d, path, name, key, values).Some?
    ensures forall v :: !Finds(DocText(Edited(d, path, name, key, values).value), path, name, v)
  {
    hide *;
    AcceptsParts(d, path, name, encode, values);
    WrittenAccepts(d, path, name, encode, key, values);
    var k := Reach(d.body, path).value;
    var p, n := PathWritten(path, k, key), NameWritten(path, k, name, key);
    NewDocument(d, p, n, encode, values);
    WrittenNames(path, k, name, key);
    var e := Edited(d, path, name, key, values).value;
    forall v ensures !Finds(DocText(e), path, name, v) {
      FindsIs(DocText(e), path, name, v);
      if Finds(DocText(e), path, name, v) {
        FoundNamesAreOk(DocText(e), path, name);
        FirstIsOk(d.body, path, name);
        InsertedOk(d, p, n, encode, values);
        FitsMissing(d.body, path, name, values(ValueIndent(d, path)));
        SameLengthApart(p + [n], path + [name]);
        InsertedKeeps(d, p, n, encode, values, path + [name]);
        SameBehindIs(d.body, e.body, path + [name]);
        LastName(d.body, path, name);
        NotInside(d.body, path);
        KeptIsMissing(Seek(d.body, path + [name]), Seek(e.body, path + [name]));
        FindsWhatIsThere(e, path, name);
        NotShownFound(DocText(e), path, name, Seek(e.body, path + [name]), v);
      }
    }
  }

  lemma FirstIsOk(b: Body, path: seq<Bytes>, name: Bytes)
    requires Reach(b, path).Some? && NamesOk(path, name)
    ensures CharsOk(FirstName(b, path, name))
  {
    hide Reach, CharsOk;
  }

  lemma FitsMissing(b: Body, path: seq<Bytes>, name: Bytes, v: Value)
    requires Reach(b, path).Some? && Reach(b, path).value < |path|
    ensures Fits(b, path, name, v)
  {
    NotInside(b, path);
    hide Reach, Inner;
  }

  lemma SameLengthApart(a: seq<Bytes>, b: seq<Bytes>)
    requires |a| == |b| && a != b
    ensures Apart(a, b)
  {
    assert a[..|a|] == a && b[..|b|] == b;
  }

  lemma KeptIsMissing(before: Sought, now: Sought)
    requires Kept(before, now) && before.NoContainer?
    ensures now.NoMember? || now.NoContainer?
  {
  }

  lemma NotShownFound(raw: Bytes, path: seq<Bytes>, name: Bytes, s: Sought, v: Value)
    requires Shows(raw, path, name, s) && (s.NoMember? || s.NoContainer?)
    ensures !Finds(raw, path, name, v)
  {
    hide Resolve, Find, Covers;
  }

  // Every other name, anywhere in the document, is found after the insert exactly as before: with the
  // same value, or missing from an object that can be read, or behind the same member that is no
  // object. Where the objects of its path ended, they may go on now, but they do not hold the name.
  lemma InsertKeepsOthers(given: Bytes, d: Doc, path: seq<Bytes>, name: Bytes, encode: Encoder, values: ValueAt,
                          key: KeyEncoder, otherPath: seq<Bytes>, other: Bytes)
    requires OrEmptyObject(given) == DocText(d) && Accepts(d, path, name, encode, values) && WritesKeys(key)
    requires CharsOk(FirstName(d.body, path, name)) && Fits(d.body, path, name, values(ValueIndent(d, path)))
    requires Apart(Written(d.body, path, name, key), otherPath + [other]) && Readable(d.body, otherPath + [other])
    ensures Insert(given, path, name, encode, key).Ok?
    ensures var edited := Insert(given, path, name, encode, key).value;
            var before := Seek(d.body, otherPath + [other]);
            && Shows(DocText(d), otherPath, other, before)
            && if before.NoContainer? then Missing(edited, otherPath, other, before.depth)
               else Shows(edited, otherPath, other, before)
  {
    hide *;
    AcceptsParts(d, path, name, encode, values);
    EditsAccepted(given, d, path, name, encode, key, values);
    WrittenAccepts(d, path, name, encode, key, values);
    var k := Reach(d.body, path).value;
    var p, n := PathWritten(path, k, key), NameWritten(path, k, name, key);
    InsertedOk(d, p, n, encode, values);
    InsertedKeeps(d, p, n, encode, values, otherPath + [other]);
    var e := Edited(d, path, name, key, values).value;
    SameBehindIs(d.body, e.body, otherPath + [other]);
    FindsWhatIsThere(d, otherPath, other);
    FindsWhatIsThere(e, otherPath, other);
    LastName(d.body, otherPath, other);
    KeptShows(DocText(e), otherPath, other, Seek(d.body, otherPath + [other]), Seek(e.body, otherPath + [other]));
  }

  // The objects of the path exist at least so far, and the name is not in the last one.
  predicate Missing(raw: Bytes, path: seq<Bytes>, name: Bytes, least: nat) {
    && Resolve(raw, path).Ok? && least <= Resolve(raw, path).value.depth
    && (Resolve(raw, path).value.depth == |path| ==> Lacks(raw, path, name))
  }

  lemma KeptShows(raw: Bytes, path: seq<Bytes>, name: Bytes, before: Sought, now: Sought)
    requires Kept(before, now) && Shows(raw, path, name, now)
    requires before.NoContainer? ==> before.depth <= |path|
    ensures if before.NoContainer? then Missing(raw, path, name, before.depth) else Shows(raw, path, name, before)
  {
    hide Resolve, Find, Finds;
  }

  // ---------------------------------------------------------------- what stays readable

  lemma {:induction false} ReadableBeyond(b: Body, path: seq<Bytes>, rest: seq<Bytes>)
    requires path != []
    ensures Readable(b, path + rest) <==>
              && Readable(b, path)
              && var s := Seek(b, path);
                 s.Holds? && s.value.Braces? ==> Readable(s.value.body, rest)
    decreases |path|
  {
    hide ReadsTo, Lookup;
    assert (path + rest)[0] == path[0] && (path + rest)[1..] == path[1..] + rest;
    var v := Lookup(b, path[0]);
    if |path| == 1 {
      assert path[1..] + rest == rest;
    } else if v.Some? && v.value.Braces? {
      ReadableBeyond(v.value.body, path[1..], rest);
    }
  }

  lemma {:induction false} MisreadDoesNotRead(b: Body, name: Bytes)
    requires MisreadAt(b, name)
    ensures !ReadsTo(b, name)
    decreases b
  {
    if !IsField(b.piece, name) {
      MisreadDoesNotRead(b.rest, name);
    }
  }

  lemma OneReads(b: Body, name: Bytes)
    ensures Readable(b, [name]) <==> ReadsTo(b, name)
  {
    hide ReadsTo, Lookup;
  }

  lemma UnfitIsNotReadable(d: Doc, path: seq<Bytes>, name: Bytes, encode: Encoder, values: ValueAt)
    requires Accepts(d, path, name, encode, values)
    requires !Fits(d.body, path, name, values(ValueIndent(d, path)))
    ensures Inserted(d, path, name, values).Some?
    ensures !Readable(Inserted(d, path, name, values).value.body, path + [name])
  {
    hide *;
    AcceptsParts(d, path, name, encode, values);
    NewDocument(d, path, name, encode, values);
    var k := Reach(d.body, path).value;
    var raw, brace, c := DocText(d), BraceAt(d.body, RootAt(d), path[..k]), Inner(d.body, path[..k]).value;
    var n := NewBody(raw, brace, c, path, k, name, values);
    FitsAtIndent(d, path, name, values, k, MemberIndent(raw, brace));
    NewBodyLeads(raw, brace, c, path, k, name, encode, values);
    assert path[..k] == path;
    MisreadDoesNotRead(n, name);
    OneReads(n, name);
    RebuildLeads(d.body, path, n, [name]);
  }

  // Every path of names that could be read before can be read after, if and only if the value fits: a
  // scalar may replace a scalar, but not stand in front of a comment. The value itself can be read.
  lemma InsertStaysReadable(d: Doc, path: seq<Bytes>, name: Bytes, encode: Encoder, key: KeyEncoder, values: ValueAt)
    requires Accepts(d, path, name, encode, values) && WritesKeys(key) && CharsOk(FirstName(d.body, path, name))
    requires var v := values(ValueIndent(d, path)); v.Braces? ==> forall names :: Readable(v.body, names)
    ensures Edited(d, path, name, key, values).Some? && DocOk(Edited(d, path, name, key, values).value)
    ensures var e := Edited(d, path, name, key, values).value;
            (forall names :: Readable(d.body, names) ==> Readable(e.body, names))
            <==> Fits(d.body, path, name, values(ValueIndent(d, path)))
  {
    hide *;
    AcceptsParts(d, path, name, encode, values);
    WrittenAccepts(d, path, name, encode, key, values);
    var k := Reach(d.body, path).value;
    var p, n := PathWritten(path, k, key), NameWritten(path, k, name, key);
    InsertedOk(d, p, n, encode, values);
    InsertedLeads(d, p, n, encode, values);
    var e, to := Edited(d, path, name, key, values).value, p + [n];
    if Fits(d.body, path, name, values(ValueIndent(d, path))) {
      forall names | Readable(d.body, names) ensures Readable(e.body, names) {
        if names <= to {
          assert names + to[|names|..] == to;
          ReadablePrefix(e.body, names, to[|names|..]);
        } else if to <= names {
          assert to + names[|to|..] == names;
          ReadableBeyond(e.body, to, names[|to|..]);
        } else {
          IsApart(to, names);
          InsertedKeeps(d, p, n, encode, values, names);
          SameBehindIs(d.body, e.body, names);
        }
      }
    } else {
      AcceptsParts(d, p, n, encode, values);
      UnfitIsNotReadable(d, p, n, encode, values);
    }
  }

  lemma IsApart(a: seq<Bytes>, b: seq<Bytes>)
    requires !(a <= b) && !(b <= a)
    ensures Apart(a, b) && b != []
  {
  }

  // ---------------------------------------------------------------- remove

  lemma FrontLocates(indent: Bytes, name: Bytes, v: Value, c: Body, i: nat)
    requires IsIndentation(indent)
    ensures var key := i + 1 + |indent|;
            var start := key + |KeyText(name) + COLON_SPACE|;
            Locate(Front(indent, name, v, None, c), i, name) == Some(Span(key, start, start + |ValueText(v)|))
  {
    IndentIsSpace(indent);
    FieldHead(name);
    hide KeyText, ValueText, HeadText;
    BlanksFacts([LF] + indent, FieldThen(name, v, Next(Separator, c)), i, name);
  }

  lemma {:induction false} IndentRuns(raw: Bytes, i: nat, indent: Bytes)
    requires At(raw, i, indent) && IsIndentation(indent) && i > 0 && raw[i - 1] == LF
    ensures IndentStart(raw, i + |indent|) == i
    decreases |indent|
  {
    if indent != [] {
      var n := |indent| - 1;
      AtIndex(raw, i, indent, n);
      assert indent == indent[..n] + [indent[n]];
      AtConcat(raw, i, indent[..n], [indent[n]]);
      IndentRuns(raw, i, indent[..n]);
    }
  }

  // Cutting a member that insert put behind the brace, with its comma, restores the text.
  lemma CutRestores(raw: Bytes, at: nat, indent: Bytes, member: Bytes, span: Span)
    requires 0 < at <= |raw| && raw[at - 1] == LBRACE && IsIndentation(indent)
    requires span.keyStart == at + 1 + |indent| && span.valueEnd == span.keyStart + |member|
    ensures var edited := Splice(raw, at, at, [LF] + indent + member + [COMMA]);
            span.valueEnd < |edited| && CutSpan(edited, span) == raw
  {
    var block := [LF] + indent + member + [COMMA];
    var edited := Splice(raw, at, at, block);
    BlockParts(raw, at, indent, member);
    IndentRuns(edited, at + 1, indent);
    assert TrimLineStart(edited, span.keyStart) == at;
    assert NextByte(edited, span.valueEnd, COMMA) == Some(span.valueEnd);
    hide IndentStart, NextByte, TrimLineStart, At, IsIndentation;
    SpliceIs(edited, at, span.valueEnd + 1, []);
    assert raw[..at] + [] + raw[at..] == raw;
  }

  // The parts of the text with the block in it.
  lemma BlockParts(raw: Bytes, at: nat, indent: Bytes, member: Bytes)
    requires 0 < at <= |raw|
    ensures var edited := Splice(raw, at, at, [LF] + indent + member + [COMMA]);
            var comma := at + 1 + |indent| + |member|;
            && comma < |edited| && edited[comma] == COMMA && edited[at] == LF && edited[at - 1] == raw[at - 1]
            && At(edited, at + 1, indent) && edited[..at] == raw[..at] && edited[comma + 1..] == raw[at..]
  {
  }

  // Inserting a new name into an object that exists and is not empty, and removing it again, gives
  // the original document back, byte for byte.
  lemma InsertThenRemove(d: Doc, path: seq<Bytes>, name: Bytes, encode: Encoder, key: KeyEncoder, values: ValueAt)
    requires Accepts(d, path, name, encode, values) && CharsOk(name) && Inner(d.body, path).Some?
    requires Lookup(Inner(d.body, path).value, name).None? && !OnlyGaps(Inner(d.body, path).value)
    ensures var edited := Insert(DocText(d), path, name, encode, key);
            edited.Ok? && Remove(edited.value, path, name) == Ok(Removal(DocText(d), true))
  {
    hide *;
    AcceptsParts(d, path, name, encode, values);
    DocumentIsItself(d);
    EditsAccepted(DocText(d), d, path, name, encode, key, values);
    InnerIsReached(d.body, path);
    ExistingPathIsOk(d, path, name);
    WrittenNames(path, |path|, name, key);
    EditedIs(d, path, name, key, values);
    InsertedOk(d, path, name, encode, values);
    NewMember(d, path, name, encode, values);
    var brace, c := BraceAt(d.body, RootAt(d), path), Inner(d.body, path).value;
    var indent := MemberIndent(DocText(d), brace);
    var v := values(indent);
    var n := Front(indent, name, v, None, c);
    var e := d.(body := Rebuild(d.body, path, n));
    RebuildFacts(d.body, RootAt(d), path, n);
    SameRoot(d, Rebuild(d.body, path, n));
    FindsInContainer(e, path, name);
    FrontLocates(indent, name, v, c, brace + 1);
    NewText(d, path, indent, name, v);
    CutRestores(DocText(d), brace + 1, indent, KeyText(name) + COLON_SPACE + ValueText(v),
                Locate(n, brace + 1, name).value);
    RemoveIs(DocText(e), path, name, brace, Locate(n, brace + 1, name).value);
  }

  lemma ExistingPathIsOk(d: Doc, path: seq<Bytes>, name: Bytes)
    requires DocOk(d) && Reach(d.body, path) == Some(|path|) && CharsOk(name)
    ensures NamesOk(path, name)
  {
    PathIsChars(d.body, path);
    hide CharsOk, Reach;
    assert path[..|path|] == path;
  }

  lemma SameRoot(d: Doc, body: Body)
    ensures RootAt(d.(body := body)) == RootAt(d)
  {
  }

  // A new member of an object that is not empty stands in front, with a comma behind it.
  lemma NewMember(d: Doc, path: seq<Bytes>, name: Bytes, encode: Encoder, values: ValueAt)
    requires Accepts(d, path, name, encode, values) && Inner(d.body, path).Some?
    requires Lookup(Inner(d.body, path).value, name).None? && !OnlyGaps(Inner(d.body, path).value)
    ensures var brace, c := BraceAt(d.body, RootAt(d), path), Inner(d.body, path).value;
            && brace < |DocText(d)| && DocText(d)[brace] == LBRACE
            && var indent := MemberIndent(DocText(d), brace);
            var n := Front(indent, name, values(indent), None, c);
            && IsIndentation(indent) && ReadsTo(n, name)
            && Inserted(d, path, name, values) == Some(d.(body := Rebuild(d.body, path, n)))
            && Readable(Rebuild(d.body, path, n), path)
  {
    hide *;
    AcceptsParts(d, path, name, encode, values);
    InnerIsReached(d.body, path);
    assert path[..|path|] == path;
    NewDocument(d, path, name, encode, values);
    ContainerInDoc(d, path);
    var raw, brace, c := DocText(d), BraceAt(d.body, RootAt(d), path), Inner(d.body, path).value;
    var indent := MemberIndent(raw, brace);
    NewBodyCases(raw, brace, c, path, |path|, name, encode, values);
    FrontValueIs(path, |path|, name, values, indent);
    FrontFacts(indent, name, values(indent), None, c, name);
    ReadablePrefix(d.body, path, [name]);
    RebuildReadable(d.body, path, Front(indent, name, values(indent), None, c));
  }

  lemma NewText(d: Doc, path: seq<Bytes>, indent: Bytes, name: Bytes, v: Value)
    requires DocOk(d) && Inner(d.body, path).Some? && IsIndentation(indent)
    ensures var c, brace := Inner(d.body, path).value, BraceAt(d.body, RootAt(d), path);
            && brace < |DocText(d)| && DocText(d)[brace] == LBRACE
            && DocText(d.(body := Rebuild(d.body, path, Front(indent, name, v, None, c)))) ==
               Splice(DocText(d), brace + 1, brace + 1,
                      [LF] + indent + (KeyText(name) + COLON_SPACE + ValueText(v)) + [COMMA])
  {
    hide *;
    var raw, c, brace := DocText(d), Inner(d.body, path).value, BraceAt(d.body, RootAt(d), path);
    ContainerInDoc(d, path);
    DocRebuilt(d, path, Front(indent, name, v, None, c));
    FrontSplices(raw, brace, c, indent, name, v, None);
    assert ClosingText(None) == [COMMA] by {
      CommaCloses();
    }
    assert [LF] + indent + KeyText(name) + COLON_SPACE + ValueText(v) + [COMMA] ==
           [LF] + indent + (KeyText(name) + COLON_SPACE + ValueText(v)) + [COMMA];
  }

  lemma CommaCloses()
    ensures ClosingText(None) == [COMMA]
  {
  }

  lemma RemoveIs(raw: Bytes, path: seq<Bytes>, name: Bytes, brace: nat, span: Span)
    requires Resolve(raw, path) == Ok(Place(brace, |path|)) && Find(raw, brace, name) == Ok(Some(span))
    ensures Remove(raw, path, name) == Ok(Removal(CutSpan(raw, span), true))
  {
  }

  // ---------------------------------------------------------------- documents that cannot be read

  const COMMENT := Next(Space(BlockComment([COMMA])), End)

  // {"a":1/*,*/}
  const MISREAD := Doc([], Next(Field([LOWER_A], [], [], Scalar([0x31])), COMMENT), [])
  const MISREAD_TEXT: Bytes := [
    LBRACE, QUOTE, LOWER_A, QUOTE, COLON, 0x31, SLASH, STAR, COMMA, STAR, SLASH, RBRACE
  ]

  // {"a":""/*,*/}
  const COMMENTED := Doc([], Next(Field([LOWER_A], [], [], Quoted([])), COMMENT), [])

  lemma MisreadText()
    ensures DocText(MISREAD) == MISREAD_TEXT
  {
    assert GapsText([]) == [];
    assert BodyText(COMMENT) == [SLASH, STAR, COMMA, STAR, SLASH];
    assert HeadText([LOWER_A], [], []) == [QUOTE, LOWER_A, QUOTE, COLON];
    assert MISREAD.body == Next(Field([LOWER_A], [], [], Scalar([0x31])), COMMENT);
    assert PieceText(MISREAD.body.piece) == [QUOTE, LOWER_A, QUOTE, COLON, 0x31];
    assert BodyText(MISREAD.body) == PieceText(MISREAD.body.piece) + BodyText(COMMENT);
    hide HeadText, GapsText, GapText, PieceText, BodyText;
    assert ValueText(Braces(MISREAD.body)) == MISREAD_TEXT;
  }

  // How the scanners read it: the object ends at its end, but the scalar ends inside the comment.
  lemma MisreadScans()
    ensures Close(MISREAD_TEXT, 1, LBRACE, RBRACE, 1) == Some(11)
    ensures ValueEnd(MISREAD_TEXT, 5) == Some(8)
  {
    var s := MISREAD_TEXT;
    assert CommentClose(s, 8) == CommentClose(s, 9) == Some(9);
    assert SkipSpace(s, 11) == 11;
    assert SkipSpace(s, 6) == 11;
    assert QuoteEnd(s, 2) == QuoteEnd(s, 3) == Some(4);
    assert Close(s, 11, LBRACE, RBRACE, 1) == Some(11);
    assert Close(s, 6, LBRACE, RBRACE, 1) == Some(11);
    assert Close(s, 4, LBRACE, RBRACE, 1) == Close(s, 5, LBRACE, RBRACE, 1) == Some(11);
    assert SkipSpace(s, 5) == 5;
    assert ScalarEnd(s, 5) == ScalarEnd(s, 6) == ScalarEnd(s, 7) == ScalarEnd(s, 8) == 8;
  }

  // With a comma in a comment between a scalar and its separator the scalar is taken to end inside the
  // comment, and a member that is not there cannot be added.
  lemma CommentBehindScalarIsMisread()
    ensures DocText(MISREAD) == MISREAD_TEXT && !EveryScalarEnds(MISREAD.body)
    ensures Find(MISREAD_TEXT, 0, [LOWER_B]) == Refused(UnexpectedByte)
  {
    MisreadText();
    MisreadScans();
    MisreadFinds();
  }

  lemma MisreadFinds()
    requires Close(MISREAD_TEXT, 1, LBRACE, RBRACE, 1) == Some(11) && ValueEnd(MISREAD_TEXT, 5) == Some(8)
    ensures Find(MISREAD_TEXT, 0, [LOWER_B]) == Refused(UnexpectedByte)
  {
    var s := MISREAD_TEXT;
    assert QuoteEnd(s, 2) == QuoteEnd(s, 3) == Some(4);
    assert SkipSpace(s, 4) == 4 && SkipSpace(s, 5) == 5;
    assert s[1..4] == KeyText([LOWER_A]) && KeyText([LOWER_A]) != KeyText([LOWER_B]);
    hide SkipSpace, ValueEnd, QuoteEnd, Close, KeyText;
    assert FindFrom(s, 9, 11, KeyText([LOWER_B])) == Refused(UnexpectedByte);
    assert FindFrom(s, 8, 11, KeyText([LOWER_B])) == Refused(UnexpectedByte);
  }

  lemma EmptyCharsOk()
    ensures CharsOk([])
  {
    assert [] + [QUOTE] == [QUOTE];
    assert QuoteEnd([QUOTE], 0) == Some(1);
  }

  lemma LetterOk()
    ensures CharsOk([LOWER_A])
  {
    var s := [LOWER_A, QUOTE];
    assert [LOWER_A] + [QUOTE] == s && s[1] == QUOTE;
    assert QuoteEnd(s, 1) == Some(2);
    assert QuoteEnd(s, 0) == Some(2);
  }

  lemma CommentOk()
    ensures BodyOk(COMMENT, true)
  {
    assert CommentClose([COMMA, STAR, SLASH], 0) == Some(1);
    assert [COMMA] + BLOCK_CLOSE == [COMMA, STAR, SLASH];
    assert BodyOk(End, true);
  }

  lemma CommentedOk()
    ensures DocOk(COMMENTED)
  {
    CommentOk();
    EmptyCharsOk();
    LetterOk();
    hide CharsOk;
    var field := Field([LOWER_A], [], [], Quoted([]));
    assert ValueOk(Quoted([])) && PieceOk(field, true);
    assert BodyOk(Next(field, COMMENT), true);
  }

  lemma CommentedIsReadable(names: seq<Bytes>)
    ensures DocOk(COMMENTED) && Readable(COMMENTED.body, names)
  {
    CommentedOk();
    hide DocOk;
    if names != [] {
      assert Lookup(COMMENT, names[0]) == None && ReadsTo(COMMENT, names[0]);
      assert Lookup(COMMENTED.body, names[0]) == if names[0] == [LOWER_A] then Some(Quoted([])) else None;
    }
  }

  lemma MisreadRoot()
    ensures Resolve(MISREAD_TEXT, []) == Ok(Place(0, 0))
  {
    assert SkipSpace(MISREAD_TEXT, 0) == 0;
  }

  lemma OneIsEncoded(encode: Encoder, values: ValueAt)
    requires forall prefix: Bytes :: encode(prefix) == [0x31] && values(prefix) == Scalar([0x31])
    ensures Encodes(encode, values)
  {
    assert IsPlain(0x31);
  }

  lemma CommentedTakes(values: ValueAt)
    requires DocOk(COMMENTED) && forall prefix: Bytes :: values(prefix) == Scalar([0x31])
    ensures Inserted(COMMENTED, [], [LOWER_A], values) == Some(MISREAD)
    ensures !Fits(COMMENTED.body, [], [LOWER_A], Scalar([0x31]))
  {
    InsertedIs(COMMENTED, [], [LOWER_A], values);
    assert After(COMMENTED.body, [LOWER_A]) == COMMENT;
    var key: seq<Bytes> := [];
    assert key[..0] == key;
    hide DocText, DocOk, MemberIndent, BraceIndent, Front, NestedValue, Closing;
  }

  lemma NoPath(d: Doc, name: Bytes, key: KeyEncoder, values: ValueAt)
    requires DocOk(d)
    ensures Reach(d.body, []) == Some(0) && Edited(d, [], name, key, values) == Inserted(d, [], name, values)
  {
    hide Inserted;
  }

  // A document that can be read along every path is edited into one that cannot: a scalar takes the place
  // of a string that has a comment behind it.
  lemma ScalarInFrontOfCommentIsMisread(encode: Encoder, key: KeyEncoder)
    requires forall prefix: Bytes :: encode(prefix) == [0x31]
    ensures DocOk(COMMENTED) && forall names :: Readable(COMMENTED.body, names)
    ensures Insert(DocText(COMMENTED), [], [LOWER_A], encode, key) == Ok(MISREAD_TEXT)
    ensures !Fits(COMMENTED.body, [], [LOWER_A], Scalar([0x31]))
    ensures FindAt(MISREAD_TEXT, [], [LOWER_B]) == None && Find(MISREAD_TEXT, 0, [LOWER_B]).Refused?
  {
    hide *;
    forall names: seq<Bytes> ensures DocOk(COMMENTED) && Readable(COMMENTED.body, names) {
      CommentedIsReadable(names);
    }
    CommentedIsReadable([]);
    var values: ValueAt := (prefix: Bytes) => Scalar([0x31]);
    OneIsEncoded(encode, values);
    CommentedTakes(values);
    NoPath(COMMENTED, [LOWER_A], key, values);
    IsAccepted(COMMENTED, [], [LOWER_A], encode, values);
    CommentBehindScalarIsMisread();
    DocumentIsItself(COMMENTED);
    EditsAccepted(DocText(COMMENTED), COMMENTED, [], [LOWER_A], encode, key, values);
    MisreadRoot();
    FindAtIs(MISREAD_TEXT, [], [LOWER_B]);
  }

  // ---------------------------------------------------------------- a name the encoder changes

  // {} and a line break, the document that takes the place of a blank one
  const EMPTY := Doc([], End, [LF])

  const START_OF_HEADING: Bytes := [0x01]

  lemma EmptyIsAccepted(name: Bytes, encode: Encoder, values: ValueAt)
    requires forall prefix: Bytes :: encode(prefix) == [QUOTE, QUOTE] && values(prefix) == Quoted([])
    ensures Accepts(EMPTY, [[LOWER_A]], name, encode, values) && OrEmptyObject([]) == DocText(EMPTY)
    ensures Reach(EMPTY.body, [[LOWER_A]]) == Some(0) && FirstName(EMPTY.body, [[LOWER_A]], name) == [LOWER_A]
    ensures CharsOk([LOWER_A]) && Fits(EMPTY.body, [[LOWER_A]], name, Quoted([]))
  {
    EmptyCharsOk();
    LetterOk();
    assert GapsText([]) == [] && BodyText(End) == [];
    hide CharsOk;
    assert DocText(EMPTY) == EMPTY_DOCUMENT && ValueText(Quoted([])) == [QUOTE, QUOTE];
  }

  // A control character is written as an escape in a key of a missing container, and is then found under
  // the escape alone, not under the name it was inserted under.
  lemma EscapedNameIsNotFound(encode: Encoder, key: KeyEncoder)
    requires forall prefix: Bytes :: encode(prefix) == [QUOTE, QUOTE]
    requires WritesKeys(key) && key(START_OF_HEADING) == [BACKSLASH, 0x75, 0x30, 0x30, 0x30, 0x31]
    ensures var edited := Insert([], [[LOWER_A]], START_OF_HEADING, encode, key);
            && edited.Ok? && Finds(edited.value, [[LOWER_A]], key(START_OF_HEADING), Quoted([]))
            && forall v :: !Finds(edited.value, [[LOWER_A]], START_OF_HEADING, v)
  {
    hide *;
    var path, values: ValueAt := [[LOWER_A]], (prefix: Bytes) => Quoted([]);
    EmptyIsAccepted(START_OF_HEADING, encode, values);
    InsertThenFind([], EMPTY, path, START_OF_HEADING, encode, key, values);
    EditsAccepted([], EMPTY, path, START_OF_HEADING, encode, key, values);
    EscapeIsWritten(path, key);
    GivenIsNotFound(EMPTY, path, START_OF_HEADING, encode, key, values);
  }

  lemma EscapeIsWritten(path: seq<Bytes>, key: KeyEncoder)
    requires path == [[LOWER_A]] && Reach(EMPTY.body, path) == Some(0) && |key(START_OF_HEADING)| == 6
    ensures PathWritten(path, 0, key) == path && NameWritten(path, 0, START_OF_HEADING, key) == key(START_OF_HEADING)
    ensures Written(EMPTY.body, path, START_OF_HEADING, key) != path + [START_OF_HEADING]
  {
    var w := path + [key(START_OF_HEADING)];
    assert PathWritten(path, 0, key) == path;
    assert w[1] != (path + [START_OF_HEADING])[1];
  }
}
