// Edits of an object deep in the tree: the text they change, and what they keep.

module JsoncLaws {
  import opened ByteSeqs
  import opened JsonGrammar
  import opened JsoncPaths
  import opened JsoncReads
  import opened JsoncScan
  import opened JsoncTree
  import opened Options
  import opened Results

  // ---------------------------------------------------------------- edits of the tree

  function SetValue(b: Body, name: Bytes, v: Value): Body {
    match b
    case End => End
    case Next(piece, rest) =>
      if IsField(piece, name) then Next(piece.(value := v), rest) else Next(piece, SetValue(rest, name, v))
  }

  // The body with another body in place of the object at the end of a path.
  function Rebuild(b: Body, path: seq<Bytes>, inner: Body): Body
    requires Inner(b, path).Some?
    decreases |path|
  {
    if path == [] then inner
    else SetValue(b, path[0], Braces(Rebuild(Lookup(b, path[0]).value.body, path[1..], inner)))
  }

  lemma {:induction false} SetValueFacts(b: Body, i: nat, name: Bytes, v: Value)
    requires Lookup(b, name).Some?
    ensures Lookup(SetValue(b, name, v), name) == Some(v)
    ensures Locate(SetValue(b, name, v), i, name).value.valueStart == Locate(b, i, name).value.valueStart
    decreases b
  {
    hide HeadText, ValueText, GapText, BlankRun;
    if !IsField(b.piece, name) {
      SetValueFacts(b.rest, i + |PieceText(b.piece)|, name, v);
    }
  }

  lemma {:induction false} SetValueOk(b: Body, name: Bytes, v: Value)
    requires BodyOk(b, true) && ValueOk(v)
    ensures BodyOk(SetValue(b, name, v), true)
    decreases b
  {
    if b.Next? && !IsField(b.piece, name) {
      SetValueOk(b.rest, name, v);
    }
  }

  lemma {:induction false} SetValueText(raw: Bytes, i: nat, b: Body, name: Bytes, v: Value)
    requires At(raw, i, BodyText(b)) && BodyOk(b, true) && Lookup(b, name).Some?
    ensures var j, was := Locate(b, i, name).value.valueStart, Lookup(b, name).value;
            && j + |ValueText(was)| <= |raw| && i + |BodyText(b)| <= |raw|
            && raw[..i] + BodyText(SetValue(b, name, v)) + raw[i + |BodyText(b)|..] ==
               raw[..j] + ValueText(v) + raw[j + |ValueText(was)|..]
    decreases b
  {
    hide At, BodyText, PieceText, ValueText, HeadText, BodyOk, PieceOk, KeyText;
    BodyParts(raw, i, b);
    if IsField(b.piece, name) {
      SetHere(raw, i, b, v);
    } else {
      SetValueText(raw, i + |PieceText(b.piece)|, b.rest, name, v);
      SetLater(raw, i, b, name, v);
    }
  }

  lemma SetHere(raw: Bytes, i: nat, b: Body, v: Value)
    requires At(raw, i, BodyText(b)) && BodyOk(b, true) && b.Next? && b.piece.Field?
    ensures var p := b.piece;
            var j := i + |HeadText(p.key, p.before, p.after)|;
            && j + |ValueText(p.value)| <= |raw| && i + |BodyText(b)| <= |raw|
            && raw[..i] + BodyText(Next(p.(value := v), b.rest)) + raw[i + |BodyText(b)|..] ==
               raw[..j] + ValueText(v) + raw[j + |ValueText(p.value)|..]
  {
    hide *;
    var p, next := b.piece, i + |PieceText(b.piece)|;
    var head := HeadText(p.key, p.before, p.after);
    FieldBodyText(p, v, b.rest);
    BodyParts(raw, i, b);
    FieldParts(raw, i, p);
    AtSplits(raw, i, head);
    AtSplits(raw, next, BodyText(b.rest));
    AtFits(raw, i, BodyText(b));
    var tail := raw[i + |BodyText(b)|..];
    assert raw[..i] + (head + ValueText(v) + BodyText(b.rest)) + tail ==
           raw[..i] + head + ValueText(v) + (BodyText(b.rest) + tail);
  }

  lemma FieldBodyText(p: Piece, v: Value, rest: Body)
    requires p.Field?
    ensures BodyText(Next(p.(value := v), rest)) ==
            HeadText(p.key, p.before, p.after) + ValueText(v) + BodyText(rest)
  {
    hide HeadText, ValueText;
  }

  lemma SetLater(raw: Bytes, i: nat, b: Body, name: Bytes, v: Value)
    requires At(raw, i, BodyText(b)) && BodyOk(b, true) && b.Next? && !IsField(b.piece, name)
    ensures i + |BodyText(b)| <= |raw| && i + |PieceText(b.piece)| <= |raw|
    ensures raw[..i] + BodyText(SetValue(b, name, v)) + raw[i + |BodyText(b)|..] ==
            raw[..i + |PieceText(b.piece)|] + BodyText(SetValue(b.rest, name, v)) + raw[i + |BodyText(b)|..]
  {
    hide *;
    var text := BodyText(SetValue(b.rest, name, v));
    SetLaterText(b, name, v);
    BodyParts(raw, i, b);
    AtSplits(raw, i, PieceText(b.piece));
    AtFits(raw, i, BodyText(b));
    assert raw[..i] + (PieceText(b.piece) + text) == raw[..i] + PieceText(b.piece) + text;
  }

  lemma SetLaterText(b: Body, name: Bytes, v: Value)
    requires b.Next? && !IsField(b.piece, name)
    ensures BodyText(SetValue(b, name, v)) == PieceText(b.piece) + BodyText(SetValue(b.rest, name, v))
  {
    hide PieceText, IsField;
  }

  lemma AtSplits(raw: Bytes, i: nat, text: Bytes)
    requires At(raw, i, text)
    ensures i + |text| <= |raw| && raw[..i] + text == raw[..i + |text|] && text + raw[i + |text|..] == raw[i..]
  {
  }

  // Replacing the object at the end of a path replaces its text and nothing else.
  lemma {:induction false} RebuildText(raw: Bytes, i: nat, b: Body, path: seq<Bytes>, inner: Body)
    requires At(raw, i, ValueText(Braces(b))) && BodyOk(b, true) && Inner(b, path).Some?
    ensures var brace, c := BraceAt(b, i, path), Inner(b, path).value;
            && brace + |ValueText(Braces(c))| <= |raw| && i + |ValueText(Braces(b))| <= |raw|
            && raw[..i] + ValueText(Braces(Rebuild(b, path, inner))) + raw[i + |ValueText(Braces(b))|..] ==
               raw[..brace] + ValueText(Braces(inner)) + raw[brace + |ValueText(Braces(c))|..]
    decreases |path|
  {
    hide *;
    AtFits(raw, i, ValueText(Braces(b)));
    if path == [] {
      RebuildsNothing(b, i, path, inner);
    } else {
      RebuildUnfolds(b, i, path, inner);
      var name := path[0];
      var sub := Lookup(b, name).value.body;
      ValueFound(raw, i, b, name);
      BracesOk(Lookup(b, name).value);
      RebuildText(raw, Locate(b, i + 1, name).value.valueStart, sub, path[1..], inner);
      RebuildStep(raw, i, b, name, Braces(Rebuild(sub, path[1..], inner)));
    }
  }

  lemma RebuildsNothing(b: Body, i: nat, path: seq<Bytes>, inner: Body)
    requires path == []
    ensures Inner(b, path) == Some(b) && BraceAt(b, i, path) == i && Rebuild(b, path, inner) == inner
  {
  }

  lemma RebuildUnfolds(b: Body, i: nat, path: seq<Bytes>, inner: Body)
    requires path != [] && Inner(b, path).Some?
    ensures Lookup(b, path[0]).Some? && Lookup(b, path[0]).value.Braces? && Locate(b, i + 1, path[0]).Some?
    ensures var sub, j := Lookup(b, path[0]).value.body, Locate(b, i + 1, path[0]).value.valueStart;
            && Inner(b, path) == Inner(sub, path[1..]) && BraceAt(b, i, path) == BraceAt(sub, j, path[1..])
            && Rebuild(b, path, inner) == SetValue(b, path[0], Braces(Rebuild(sub, path[1..], inner)))
  {
    hide Lookup, Locate, SetValue;
    LocatesIffLookup(b, i + 1, path[0]);
  }

  lemma RebuildStep(raw: Bytes, i: nat, b: Body, name: Bytes, v: Value)
    requires At(raw, i, ValueText(Braces(b))) && BodyOk(b, true) && Lookup(b, name).Some?
    ensures var j, was := Locate(b, i + 1, name).value.valueStart, Lookup(b, name).value;
            && j + |ValueText(was)| <= |raw| && i + |ValueText(Braces(b))| <= |raw|
            && raw[..i] + ValueText(Braces(SetValue(b, name, v))) + raw[i + |ValueText(Braces(b))|..] ==
               raw[..j] + ValueText(v) + raw[j + |ValueText(was)|..]
  {
    hide *;
    BodyInside(raw, i, Braces(b));
    SetValueText(raw, i + 1, b, name, v);
    BracesText(SetValue(b, name, v));
    BracesAround(raw, i, BodyText(SetValue(b, name, v)), i + 1 + |BodyText(b)|);
  }

  lemma BracesAround(raw: Bytes, brace: nat, body: Bytes, end: nat)
    requires brace < end < |raw| && raw[brace] == LBRACE && raw[end] == RBRACE
    ensures raw[..brace] + ([LBRACE] + body + [RBRACE]) + raw[end + 1..] == raw[..brace + 1] + body + raw[end..]
  {
    assert raw[..brace + 1] == raw[..brace] + [LBRACE] && raw[end..] == [RBRACE] + raw[end + 1..];
  }

  lemma BracesText(b: Body)
    ensures ValueText(Braces(b)) == [LBRACE] + BodyText(b) + [RBRACE]
  {
  }

  lemma {:induction false} RebuildFacts(b: Body, i: nat, path: seq<Bytes>, inner: Body)
    requires Inner(b, path).Some?
    ensures Inner(Rebuild(b, path, inner), path) == Some(inner)
    ensures BraceAt(Rebuild(b, path, inner), i, path) == BraceAt(b, i, path)
    decreases |path|
  {
    if path != [] {
      var sub := Lookup(b, path[0]).value.body;
      SetValueFacts(b, i + 1, path[0], Braces(Rebuild(sub, path[1..], inner)));
      RebuildFacts(sub, Locate(b, i + 1, path[0]).value.valueStart, path[1..], inner);
    }
  }

  lemma {:induction false} RebuildOk(b: Body, path: seq<Bytes>, inner: Body)
    requires Inner(b, path).Some? && BodyOk(b, true) && BodyOk(inner, true)
    ensures BodyOk(Rebuild(b, path, inner), true)
    decreases |path|
  {
    if path != [] {
      LookupOk(b, path[0]);
      RebuildOk(Lookup(b, path[0]).value.body, path[1..], inner);
      SetValueOk(b, path[0], Braces(Rebuild(Lookup(b, path[0]).value.body, path[1..], inner)));
    }
  }

  lemma {:induction false} LookupOk(b: Body, name: Bytes)
    requires BodyOk(b, true) && Lookup(b, name).Some?
    ensures ValueOk(Lookup(b, name).value)
    decreases b
  {
    if !IsField(b.piece, name) {
      LookupOk(b.rest, name);
    }
  }

  lemma {:induction false} InnerConcat(b: Body, p: seq<Bytes>, q: seq<Bytes>)
    requires Inner(b, p).Some?
    ensures Inner(b, p + q) == Inner(Inner(b, p).value, q)
    decreases |p|
  {
    if p == [] {
      assert p + q == q;
    } else {
      InnerConcat(Lookup(b, p[0]).value.body, p[1..], q);
      assert (p + q)[1..] == p[1..] + q;
    }
  }

  // ---------------------------------------------------------------- what an edit deep in the tree keeps

  lemma {:induction false} SetBracesKeeps(b: Body, name: Bytes, v: Value, other: Bytes)
    requires Lookup(b, name).Some? && Lookup(b, name).value.Braces? && v.Braces?
    ensures Lookup(SetValue(b, name, v), other) == if other == name then Some(v) else Lookup(b, other)
    ensures ReadsTo(SetValue(b, name, v), other) == ReadsTo(b, other)
    ensures ScalarEnds(SetValue(b, name, v)) == ScalarEnds(b)
    decreases b
  {
    if !IsField(b.piece, name) {
      SetBracesKeeps(b.rest, name, v, other);
    }
  }

  // An edit inside the object at the end of a path leads on from there.
  lemma {:induction false} RebuildLeads(b: Body, path: seq<Bytes>, inner: Body, names: seq<Bytes>)
    requires Inner(b, path).Some? && names != []
    ensures !Seek(inner, names).NoContainer? ==> Seek(Rebuild(b, path, inner), path + names) == Seek(inner, names)
    ensures Readable(Rebuild(b, path, inner), path + names) <==> Readable(b, path) && Readable(inner, names)
    decreases |path|
  {
    hide Lookup, ReadsTo, SetValue;
    if path == [] {
      assert path + names == names;
    } else {
      var sub := Lookup(b, path[0]).value.body;
      var v := Braces(Rebuild(sub, path[1..], inner));
      SetBracesKeeps(b, path[0], v, path[0]);
      assert (path + names)[1..] == path[1..] + names;
      RebuildLeads(sub, path[1..], inner, names);
    }
  }

  // What was sought is still there, or still missing: only objects that did not exist may exist now.
  predicate Kept(before: Sought, now: Sought) {
    || now == before
    || (before.NoContainer? && (now.NoMember? || (now.NoContainer? && before.depth <= now.depth)))
  }

  // A path of names leads to the same in two bodies, and the second can be read if the first can.
  ghost predicate SameBehind(b: Body, c: Body, names: seq<Bytes>)
    requires names != []
  {
    Kept(Seek(b, names), Seek(c, names)) && (Readable(b, names) ==> Readable(c, names))
  }

  // Neither is a prefix of the other.
  ghost predicate Apart(a: seq<Bytes>, b: seq<Bytes>) {
    !(a <= b) && !(b <= a)
  }

  // An edit inside the object at the end of a path changes nothing that lies elsewhere.
  lemma {:induction false} RebuildKeeps(b: Body, path: seq<Bytes>, inner: Body, names: seq<Bytes>)
    requires Inner(b, path).Some? && names != [] && !(names <= path)
    requires path <= names ==> SameBehind(Inner(b, path).value, inner, names[|path|..])
    ensures SameBehind(b, Rebuild(b, path, inner), names)
    ensures (path <= names ==> Seek(inner, names[|path|..]) == Seek(Inner(b, path).value, names[|path|..]))
            ==> Seek(Rebuild(b, path, inner), names) == Seek(b, names)
    decreases |path|
  {
    hide Lookup, ReadsTo, SetValue;
    if path == [] {
      assert names[0..] == names;
    } else {
      var sub := Lookup(b, path[0]).value.body;
      var v := Braces(Rebuild(sub, path[1..], inner));
      SetBracesKeeps(b, path[0], v, names[0]);
      if names[0] == path[0] {
        PrefixTail(names, path);
        PrefixTail(path, names);
        assert path <= names ==> names[|path|..] == names[1..][|path[1..]|..];
        RebuildKeeps(sub, path[1..], inner, names[1..]);
      }
    }
  }

  lemma PrefixTail(a: seq<Bytes>, b: seq<Bytes>)
    requires a != [] && b != [] && a[0] == b[0]
    ensures a <= b <==> a[1..] <= b[1..]
  {
    assert a == [a[0]] + a[1..] && b == [b[0]] + b[1..];
  }

  lemma RebuiltOk(d: Doc, path: seq<Bytes>, n: Body)
    requires DocOk(d) && Inner(d.body, path).Some? && BodyOk(n, true)
    ensures DocOk(d.(body := Rebuild(d.body, path, n)))
    ensures RootAt(d.(body := Rebuild(d.body, path, n))) == RootAt(d)
  {
    RebuildOk(d.body, path, n);
  }

  lemma SameBehindIs(b: Body, c: Body, names: seq<Bytes>)
    requires names != []
    ensures SameBehind(b, c, names) <==>
              Kept(Seek(b, names), Seek(c, names)) && (Readable(b, names) ==> Readable(c, names))
  {
    hide Seek, Readable, Kept;
  }

  lemma ApartBehind(a: seq<Bytes>, b: seq<Bytes>, others: seq<Bytes>)
    requires Apart(a + b, others)
    ensures !(others <= a) && (a <= others ==> others[|a|..] != [] && Apart(b, others[|a|..]))
  {
    if a <= others {
      assert others == a + others[|a|..];
    }
    assert others <= a ==> others <= a + b;
  }

  lemma NotThePrefix(name: Bytes, others: seq<Bytes>)
    requires others != [] && !([name] <= others)
    ensures others[0] != name
  {
  }

  lemma {:induction false} ReadablePrefix(b: Body, p: seq<Bytes>, q: seq<Bytes>)
    requires Readable(b, p + q)
    ensures Readable(b, p)
    decreases |p|
  {
    hide ReadsTo, Lookup;
    if p != [] {
      assert (p + q)[1..] == p[1..] + q;
      var v := Lookup(b, p[0]);
      if v.Some? && v.value.Braces? {
        ReadablePrefix(v.value.body, p[1..], q);
      }
    }
  }

  lemma {:induction false} RebuildReadable(b: Body, path: seq<Bytes>, inner: Body)
    requires Inner(b, path).Some? && Readable(b, path)
    ensures Readable(Rebuild(b, path, inner), path)
    decreases |path|
  {
    hide Lookup, ReadsTo, SetValue;
    if path != [] {
      var sub := Lookup(b, path[0]).value.body;
      SetBracesKeeps(b, path[0], Braces(Rebuild(sub, path[1..], inner)), path[0]);
      RebuildReadable(sub, path[1..], inner);
    }
  }

  lemma MisreadInside(d: Doc, path: seq<Bytes>, n: Body, name: Bytes, v: Value)
    requires DocOk(d) && Readable(d.body, path) && Inner(d.body, path).Some?
    requires MisreadAt(n, name) && Lookup(n, name) == Some(v)
    requires DocOk(d.(body := Rebuild(d.body, path, n)))
    ensures !Finds(DocText(d.(body := Rebuild(d.body, path, n))), path, name, v)
  {
    hide *;
    var e := d.(body := Rebuild(d.body, path, n));
    RebuildFacts(d.body, RootAt(d), path, n);
    RebuildReadable(d.body, path, n);
    InnerIsReached(e.body, path);
    ResolvesInDoc(e, path);
    assert path[..|path|] == path;
    ContainerInDoc(e, path);
    var raw, brace := DocText(e), BraceAt(e.body, RootAt(e), path);
    BracesAreOk(n);
    BodyInside(raw, brace, Braces(n));
    FindIs(raw, brace, n, name);
    FindMisreads(raw, brace + 1, n, name);
    LocatesIffLookup(n, brace + 1, name);
    LocatedCovers(raw, brace + 1, n, name);
    FindAtIs(raw, path, name);
    FindsIs(raw, path, name, v);
    MisreadCoversNot(raw, Find(raw, brace, name), Locate(n, brace + 1, name).value, v);
  }

  lemma MisreadCoversNot(raw: Bytes, found: Result<Option<Span>, EditError>, at: Span, v: Value)
    requires Misread(raw, found, at) && Covers(raw, at, v)
    ensures found.Ok? ==> found.value.Some? && !Covers(raw, found.value.value, v)
  {
  }
}
