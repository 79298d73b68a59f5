// insertJSONMember is one splice into the text, and on well-formed documents an edit of the tree.

module JsoncInsertion {
  import opened ByteSeqs
  import opened JsonGrammar
  import opened JsoncEdit
  import opened JsoncLaws
  import opened JsoncPaths
  import opened JsoncReads
  import opened JsoncRoundTrip
  import opened JsoncScan
  import opened JsoncTree
  import opened Options
  import opened Results

  ghost predicate NamesOk(path: seq<Bytes>, name: Bytes) {
    CharsOk(name) && forall n <- path :: CharsOk(n)
  }

  function Closing(raw: Bytes, brace: nat): Option<Bytes>
    requires brace < |raw|
  {
    if ClosesAtOnce(raw, brace) then Some(BraceIndent(raw, brace)) else None
  }

  function MissingMaps(path: seq<Bytes>, k: nat, name: Bytes): Nested
    requires k <= |path|
  {
    if k < |path| then Chain(path[k + 1..] + [name]) else Given
  }

  // The path and the name under which the value stands afterwards: the names of missing containers behind
  // the first, and of the member in them, go through the encoder.
  function PathWritten(path: seq<Bytes>, k: nat, key: KeyEncoder): seq<Bytes>
    requires k <= |path|
  {
    if k < |path| then path[..k + 1] + EncodedKeys(path[k + 1..], key) else path
  }

  function NameWritten(path: seq<Bytes>, k: nat, name: Bytes, key: KeyEncoder): Bytes
    requires k <= |path|
  {
    if k < |path| then key(name) else name
  }

  lemma WrittenNames(path: seq<Bytes>, k: nat, name: Bytes, key: KeyEncoder)
    requires k <= |path|
    ensures var p, n := PathWritten(path, k, key), NameWritten(path, k, name, key);
            && |p| == |path| && p[..k] == path[..k] && (k == |path| ==> p == path && n == name)
            && (k < |path| ==> p[k] == path[k])
            && MissingMaps(p, k, n) == if k < |path| then Chain(EncodedKeys(path[k + 1..] + [name], key)) else Given
  {
    hide Chain;
    if k < |path| {
      var p := PathWritten(path, k, key);
      assert p[k + 1..] + [key(name)] == EncodedKeys(path[k + 1..] + [name], key);
    }
  }

  // The container c, whose brace stands in raw, with the member in it.
  function NewBody(raw: Bytes, brace: nat, c: Body, path: seq<Bytes>, k: nat, name: Bytes, values: ValueAt): Body
    requires brace < |raw| && k <= |path|
  {
    var indent := MemberIndent(raw, brace);
    if k == |path| && Lookup(c, name).Some? then Replace(c, name, values(indent))
    else
      Front(indent, if k < |path| then path[k] else name, NestedValue(MissingMaps(path, k, name), values, indent),
            Closing(raw, brace), c)
  }

  // The document with the member inserted; None when the path leads through something that is no object.
  function Inserted(d: Doc, path: seq<Bytes>, name: Bytes, values: ValueAt): Option<Doc>
    requires DocOk(d)
  {
    match Reach(d.body, path)
    case None => None
    case Some(k) =>
      ReachedInner(d.body, path);
      ContainerInDoc(d, path[..k]);
      var brace := BraceAt(d.body, RootAt(d), path[..k]);
      var c := Inner(d.body, path[..k]).value;
      Some(d.(body := Rebuild(d.body, path[..k], NewBody(DocText(d), brace, c, path, k, name, values))))
  }

  lemma DocRebuilt(d: Doc, path: seq<Bytes>, inner: Body)
    requires DocOk(d) && Inner(d.body, path).Some?
    ensures var brace, c := BraceAt(d.body, RootAt(d), path), Inner(d.body, path).value;
            && brace + |ValueText(Braces(c))| <= |DocText(d)|
            && DocText(d.(body := Rebuild(d.body, path, inner))) ==
               DocText(d)[..brace] + ValueText(Braces(inner)) + DocText(d)[brace + |ValueText(Braces(c))|..]
  {
    hide *;
    var e := d.(body := Rebuild(d.body, path, inner));
    var text, t, i := ValueText(Braces(d.body)), ValueText(Braces(e.body)), RootAt(d);
    DocIs(d);
    DocIs(e);
    DocAt(d);
    RebuildText(DocText(d), i, d.body, path, inner);
    assert DocText(d)[..i] == GapsText(d.before) && DocText(d)[i + |text|..] == d.after;
    assert GapsText(d.before) + (t + d.after) == GapsText(d.before) + t + d.after;
  }

  lemma DocIs(d: Doc)
    ensures DocText(d) == GapsText(d.before) + (ValueText(Braces(d.body)) + d.after)
    ensures RootAt(d) == |GapsText(d.before)| && (DocOk(d) ==> BodyOk(d.body, true))
  {
  }

  // ---------------------------------------------------------------- the two splices

  function ClosingText(closing: Option<Bytes>): Bytes {
    match closing
    case Some(s) => [LF] + s
    case None => [COMMA]
  }

  lemma FrontText(indent: Bytes, name: Bytes, v: Value, closing: Option<Bytes>, c: Body)
    requires IsIndentation(indent) && (closing.Some? ==> IsIndentation(closing.value))
    ensures BodyText(Front(indent, name, v, closing, c)) ==
            [LF] + indent + (KeyText(name) + COLON_SPACE + ValueText(v) + (ClosingText(closing) + BodyText(c)))
  {
    hide *;
    var tail := TailOf(closing, c);
    FrontIs(indent, name, v, closing, c);
    TailText(closing, c);
    IndentIsSpace(indent);
    BlanksFacts([LF] + indent, FieldThen(name, v, tail), 0, name);
    FieldText(name, v, tail);
  }

  lemma TailText(closing: Option<Bytes>, c: Body)
    requires closing.Some? ==> IsIndentation(closing.value)
    ensures BodyText(TailOf(closing, c)) == ClosingText(closing) + BodyText(c)
  {
    if closing.Some? {
      IndentIsSpace(closing.value);
      BlanksFacts([LF] + closing.value, c, 0, []);
    }
  }

  lemma FrontSplices(raw: Bytes, brace: nat, c: Body, indent: Bytes, name: Bytes, v: Value, closing: Option<Bytes>)
    requires At(raw, brace, ValueText(Braces(c)))
    requires IsIndentation(indent) && (closing.Some? ==> IsIndentation(closing.value))
    ensures brace + 1 <= brace + |ValueText(Braces(c))| <= |raw|
    ensures raw[..brace] + ValueText(Braces(Front(indent, name, v, closing, c)))
            + raw[brace + |ValueText(Braces(c))|..] ==
            Splice(raw, brace + 1, brace + 1,
                   [LF] + indent + KeyText(name) + COLON_SPACE + ValueText(v) + ClosingText(closing))
  {
    hide *;
    FrontText(indent, name, v, closing, c);
    BracesText(c);
    BracesText(Front(indent, name, v, closing, c));
    AtSplits(raw, brace, ValueText(Braces(c)));
    FrontAssembles(raw, brace, BodyText(c), [LF] + indent, KeyText(name), ValueText(v), ClosingText(closing));
  }

  lemma FrontAssembles(raw: Bytes, brace: nat, body: Bytes, indent: Bytes, key: Bytes, v: Bytes, closing: Bytes)
    requires brace + |body| + 2 <= |raw|
    requires [LBRACE] + body + [RBRACE] + raw[brace + |body| + 2..] == raw[brace..]
    ensures raw[..brace] + ([LBRACE] + (indent + (key + COLON_SPACE + v + (closing + body))) + [RBRACE])
            + raw[brace + |body| + 2..] ==
            Splice(raw, brace + 1, brace + 1, indent + key + COLON_SPACE + v + closing)
  {
  }

  lemma ReplaceSplices(raw: Bytes, brace: nat, c: Body, name: Bytes, v: Value)
    requires At(raw, brace, ValueText(Braces(c))) && BodyOk(c, true) && Lookup(c, name).Some?
    ensures var span := Locate(c, brace + 1, name).value;
            && span.valueStart <= span.valueEnd <= |raw| && brace + |ValueText(Braces(c))| <= |raw|
            && raw[..brace] + ValueText(Braces(Replace(c, name, v))) + raw[brace + |ValueText(Braces(c))|..] ==
               Splice(raw, span.valueStart, span.valueEnd, ValueText(v))
  {
    hide *;
    BodyInside(raw, brace, Braces(c));
    ReplaceText(raw, brace + 1, c, name, v);
    BracesText(Replace(c, name, v));
    var span := Locate(c, brace + 1, name).value;
    SpliceIs(raw, span.valueStart, span.valueEnd, ValueText(v));
    BracesAround(raw, brace, BodyText(Replace(c, name, v)), brace + 1 + |BodyText(c)|);
  }

  lemma SpliceIs(raw: Bytes, from: nat, to: nat, text: Bytes)
    requires from <= to <= |raw|
    ensures Splice(raw, from, to, text) == raw[..from] + text + raw[to..]
  {
  }

  // ---------------------------------------------------------------- insertion edits the tree

  lemma IndentsAreIndentation(raw: Bytes, brace: nat)
    requires brace < |raw|
    ensures IsIndentation(BraceIndent(raw, brace)) && IsIndentation(MemberIndent(raw, brace))
  {
  }

  lemma {:induction false} NotBlank(raw: Bytes, i: nat)
    requires i < |raw| && raw[i] == LBRACE
    ensures OrEmptyObject(raw) == raw && !IsBlank(raw)
    decreases i
  {
    var n := WhiteSpace(raw);
    if i < n {
      NoBraceInSpace(raw, i);
    } else if n > 0 {
      assert raw[n..][i - n] == raw[i];
      NotBlank(raw[n..], i - n);
    }
  }

  lemma NoBraceInSpace(raw: Bytes, i: nat)
    requires i < WhiteSpace(raw)
    ensures raw[i] != LBRACE
  {
    if WhiteSpace(raw) == 3 && i < 2 {
      assert raw[i] == raw[..2][i] && raw[..2] == raw[..3][..2];
    }
    if i == 2 {
      assert raw[i] == raw[..3][i];
    }
  }

  // The container's new text is what InsertAt splices.
  lemma NewBodySplices(raw: Bytes, brace: nat, c: Body, path: seq<Bytes>, k: nat, name: Bytes,
                       encode: Encoder, key: KeyEncoder, values: ValueAt)
    requires At(raw, brace, ValueText(Braces(c))) && BodyOk(c, true) && brace < |raw| && k <= |path|
    requires Encodes(encode, values) && (k == |path| ==> ReadsTo(c, name))
    ensures brace + |ValueText(Braces(c))| <= |raw| && k <= |PathWritten(path, k, key)|
    ensures var n := NewBody(raw, brace, c, PathWritten(path, k, key), k, NameWritten(path, k, name, key), values);
            InsertAt(raw, Place(brace, k), path, name, encode, key) ==
            Ok(raw[..brace] + ValueText(Braces(n)) + raw[brace + |ValueText(Braces(c))|..])
  {
    hide *;
    WrittenNames(path, k, name, key);
    var p, n := PathWritten(path, k, key), NameWritten(path, k, name, key);
    var indent := MemberIndent(raw, brace);
    if k == |path| {
      FindsInObject(raw, brace, c, name);
    }
    IndentsAreIndentation(raw, brace);
    InsertAtIs(raw, Place(brace, k), path, name, encode, key);
    NewBodyIs(raw, brace, c, p, k, n, values);
    LocatesIffLookup(c, brace + 1, name);
    if k == |path| && Lookup(c, name).Some? {
      EncodesAt(encode, values, indent);
      ReplaceSplices(raw, brace, c, name, values(indent));
    } else {
      var first, nested := if k < |path| then path[k] else name, MissingMaps(p, k, n);
      NestedIsValue(nested, encode, values, indent);
      BlockIs(raw, brace, first, nested, encode);
      FrontSplices(raw, brace, c, indent, first, NestedValue(nested, values, indent), Closing(raw, brace));
    }
  }

  lemma EncodesAt(encode: Encoder, values: ValueAt, prefix: Bytes)
    requires Encodes(encode, values) && IsIndentation(prefix)
    ensures encode(prefix) == ValueText(values(prefix))
  {
  }

  lemma BlockIs(raw: Bytes, brace: nat, key: Bytes, nested: Nested, encode: Encoder)
    requires brace < |raw|
    ensures var indent, closing := MemberIndent(raw, brace), Closing(raw, brace);
            && MemberBlock(raw, brace, key, nested, encode) ==
               [LF] + indent + KeyText(key) + COLON_SPACE + NestedText(nested, encode, indent) + ClosingText(closing)
            && (closing.Some? ==> IsIndentation(closing.value))
  {
  }

  lemma InsertAtIs(raw: Bytes, place: Place, path: seq<Bytes>, name: Bytes, encode: Encoder, key: KeyEncoder)
    requires place.brace < |raw| && place.depth <= |path|
    requires place.depth == |path| ==> Find(raw, place.brace, name).Ok?
    ensures var found, at, k := Find(raw, place.brace, name), place.brace + 1, place.depth;
            && k <= |PathWritten(path, k, key)|
            && InsertAt(raw, place, path, name, encode, key) ==
            if place.depth == |path| && found.value.Some? then
              var span := found.value.value;
              Ok(Splice(raw, span.valueStart, span.valueEnd, encode(MemberIndent(raw, place.brace))))
            else
              Ok(Splice(raw, at, at,
                MemberBlock(raw, place.brace, if place.depth < |path| then path[place.depth] else name,
                            MissingMaps(PathWritten(path, k, key), k, NameWritten(path, k, name, key)), encode)))
  {
    WrittenNames(path, place.depth, name, key);
    hide Find, MemberBlock, Splice, MissingMaps, PathWritten, NameWritten;
  }

  lemma NewBodyIs(raw: Bytes, brace: nat, c: Body, path: seq<Bytes>, k: nat, name: Bytes, values: ValueAt)
    requires brace < |raw| && k <= |path|
    ensures var indent := MemberIndent(raw, brace);
            NewBody(raw, brace, c, path, k, name, values) ==
            if k == |path| && Lookup(c, name).Some? then Replace(c, name, values(indent))
            else
              Front(indent, if k < |path| then path[k] else name,
                    NestedValue(MissingMaps(path, k, name), values, indent), Closing(raw, brace), c)
  {
  }

  // A path of the same length that agrees with another up to the first missing container leads as far.
  lemma {:induction false} SameReach(b: Body, p: seq<Bytes>, q: seq<Bytes>, k: nat, s: seq<Bytes>, t: seq<Bytes>)
    requires Reach(b, p) == Some(k) && k < |p| == |q| && p[..k + 1] == q[..k + 1]
    ensures Reach(b, q) == Some(k) && (Readable(b, p + s) <==> Readable(b, q + t))
    decreases |p|
  {
    hide Lookup, ReadsTo;
    assert p[0] == p[..k + 1][0] == q[..k + 1][0] == q[0];
    assert (p + s)[0] == p[0] && (q + t)[0] == q[0];
    assert (p + s)[1..] == p[1..] + s && (q + t)[1..] == q[1..] + t;
    if Lookup(b, p[0]).Some? {
      assert p[1..][..k] == p[..k + 1][1..] == q[..k + 1][1..] == q[1..][..k];
      SameReach(Lookup(b, p[0]).value.body, p[1..], q[1..], k - 1, s, t);
    }
  }

  lemma ReachWritten(b: Body, path: seq<Bytes>, name: Bytes, key: KeyEncoder)
    requires Reach(b, path).Some?
    ensures var k := Reach(b, path).value;
            var p, n := PathWritten(path, k, key), NameWritten(path, k, name, key);
            Reach(b, p) == Some(k) && (Readable(b, path + [name]) <==> Readable(b, p + [n]))
  {
    hide Reach, Readable;
    var k := Reach(b, path).value;
    if k < |path| {
      var p := PathWritten(path, k, key);
      assert p[..k + 1] == path[..k + 1];
      SameReach(b, path, p, k, [name], [NameWritten(path, k, name, key)]);
    }
  }

  // The document after an insert.
  function Edited(d: Doc, path: seq<Bytes>, name: Bytes, key: KeyEncoder, values: ValueAt): Option<Doc>
    requires DocOk(d)
  {
    match Reach(d.body, path)
    case None => None
    case Some(k) => Inserted(d, PathWritten(path, k, key), NameWritten(path, k, name, key), values)
  }

  lemma EditedIs(d: Doc, path: seq<Bytes>, name: Bytes, key: KeyEncoder, values: ValueAt)
    requires DocOk(d)
    ensures Edited(d, path, name, key, values) ==
            match Reach(d.body, path)
            case None => None
            case Some(k) => Inserted(d, PathWritten(path, k, key), NameWritten(path, k, name, key), values)
  {
    hide Inserted, Reach, DocOk;
  }

  // On a document that can be read along the path, the textual edit is the edit of the tree; it is
  // refused exactly when the path leads through a member that is no object.
  lemma InsertEditsTree(d: Doc, path: seq<Bytes>, name: Bytes, encode: Encoder, key: KeyEncoder, values: ValueAt)
    requires DocOk(d) && Encodes(encode, values) && Readable(d.body, path + [name])
    ensures Insert(DocText(d), path, name, encode, key) ==
            match Edited(d, path, name, key, values)
            case None => Refused(NotAContainer)
            case Some(e) => Ok(DocText(e))
  {
    hide *;
    RootFound(d);
    NotBlank(DocText(d), RootAt(d));
    LastName(d.body, path, name);
    ResolvesInDoc(d, path);
    InsertIs(DocText(d), path, name, encode, key);
    EditedIs(d, path, name, key, values);
    var reach := Reach(d.body, path);
    if reach.Some? {
      var k := reach.value;
      var p, n := PathWritten(path, k, key), NameWritten(path, k, name, key);
      ReachWritten(d.body, path, name, key);
      WrittenNames(path, k, name, key);
      InsertedIs(d, p, n, values);
      var raw, brace, c := DocText(d), BraceAt(d.body, RootAt(d), path[..k]), Inner(d.body, path[..k]).value;
      ContainerInDoc(d, path[..k]);
      if k == |path| {
        assert path[..k] == path;
      }
      NewBodySplices(raw, brace, c, path, k, name, encode, key, values);
      DocRebuilt(d, path[..k], NewBody(raw, brace, c, p, k, n, values));
    }
  }

  lemma InsertIs(raw: Bytes, path: seq<Bytes>, name: Bytes, encode: Encoder, key: KeyEncoder)
    requires OrEmptyObject(raw) == raw
    ensures match Resolve(raw, path)
            case Refused(e) => Insert(raw, path, name, encode, key) == Refused(e)
            case Ok(place) => Insert(raw, path, name, encode, key) == InsertAt(raw, place, path, name, encode, key)
  {
  }

  lemma InsertedIs(d: Doc, path: seq<Bytes>, name: Bytes, values: ValueAt)
    requires DocOk(d)
    ensures match Reach(d.body, path)
            case None => Inserted(d, path, name, values) == None
            case Some(k) =>
              && Inner(d.body, path[..k]).Some? && BraceAt(d.body, RootAt(d), path[..k]) < |DocText(d)|
              && (var brace, c := BraceAt(d.body, RootAt(d), path[..k]), Inner(d.body, path[..k]).value;
                  var n := NewBody(DocText(d), brace, c, path, k, name, values);
                  Inserted(d, path, name, values) == Some(d.(body := Rebuild(d.body, path[..k], n))))
  {
    if Reach(d.body, path).Some? {
      ReachedInner(d.body, path);
      ContainerInDoc(d, path[..Reach(d.body, path).value]);
    }
    hide NewBody, Rebuild, Inner, BraceAt, DocText, Reach;
  }

  // Everything outside a stretch of the text stays.
  predicate KeepsOutside(raw: Bytes, edited: Bytes, from: nat, to: nat) {
    && from <= to <= |raw| && from + (|raw| - to) <= |edited|
    && edited[..from] == raw[..from] && edited[|edited| - (|raw| - to)..] == raw[to..]
  }

  // Whatever the document, an insert changes one place: the value it replaces, or the point behind the
  // brace of the deepest object of the path. Every byte outside it stays.
  lemma InsertIsOneSplice(given: Bytes, path: seq<Bytes>, name: Bytes, encode: Encoder, key: KeyEncoder)
    requires Insert(given, path, name, encode, key).Ok?
    ensures var raw, edited := OrEmptyObject(given), Insert(given, path, name, encode, key).value;
            && Resolve(raw, path).Ok?
            && match FindAt(raw, path, name)
               case Some(span) =>
                 && KeepsOutside(raw, edited, span.valueStart, span.valueEnd)
                 && At(edited, span.valueStart, encode(MemberIndent(raw, Resolve(raw, path).value.brace)))
                 && |edited| - (|raw| - span.valueEnd) ==
                    span.valueStart + |encode(MemberIndent(raw, Resolve(raw, path).value.brace))|
               case None =>
                 var at := Resolve(raw, path).value.brace + 1;
                 KeepsOutside(raw, edited, at, at)
  {
    var raw := OrEmptyObject(given);
    hide Resolve, Find, MemberBlock, MemberIndent, OrEmptyObject, At;
    var place := Resolve(raw, path).value;
    var at := place.brace + 1;
    if place.depth < |path| {
      var nested := Chain(EncodedKeys(path[place.depth + 1..] + [name], key));
      SpliceKeeps(raw, at, at, MemberBlock(raw, place.brace, path[place.depth], nested, encode));
    } else {
      match Find(raw, place.brace, name)
      case Refused(_) =>
      case Ok(Some(span)) => SpliceKeeps(raw, span.valueStart, span.valueEnd, encode(MemberIndent(raw, place.brace)));
      case Ok(None) => SpliceKeeps(raw, at, at, MemberBlock(raw, place.brace, name, Given, encode));
    }
  }

  lemma SpliceKeeps(raw: Bytes, from: nat, to: nat, text: Bytes)
    requires from <= to <= |raw|
    ensures var edited := Splice(raw, from, to, text);
            && KeepsOutside(raw, edited, from, to) && At(edited, from, text)
            && |edited| - (|raw| - to) == from + |text|
  {
  }
}
