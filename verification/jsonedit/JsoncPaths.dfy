// Paths in a document: where resolveJSONContainer leads, and what is found at the end of one.

module JsoncPaths {
  import opened ByteSeqs
  import opened JsonGrammar
  import opened JsoncEdit
  import opened JsoncReads
  import opened JsoncScan
  import opened JsoncTree
  import opened Options
  import opened Results

  // ---------------------------------------------------------------- containers

  // How much of a path of objects exists; None when a name on it holds something else.
  function Reach(b: Body, path: seq<Bytes>): (r: Option<nat>)
    ensures r.Some? ==> r.value <= |path|
    decreases |path|
  {
    if path == [] then Some(0)
    else match Lookup(b, path[0])
      case None => Some(0)
      case Some(Braces(sub)) => (match Reach(sub, path[1..]) case None => None case Some(k) => Some(k + 1))
      case Some(_) => None
  }

  // The object at the end of a path.
  function Inner(b: Body, path: seq<Bytes>): Option<Body>
    decreases |path|
  {
    if path == [] then Some(b)
    else match Lookup(b, path[0])
      case Some(Braces(sub)) => Inner(sub, path[1..])
      case _ => None
  }

  // Where its opening brace stands, when b's own stands at position i.
  function BraceAt(b: Body, i: nat, path: seq<Bytes>): nat
    requires Inner(b, path).Some?
    decreases |path|
  {
    if path == [] then i
    else BraceAt(Lookup(b, path[0]).value.body, Locate(b, i + 1, path[0]).value.valueStart, path[1..])
  }

  lemma {:induction false} ReachedInner(b: Body, path: seq<Bytes>)
    requires Reach(b, path).Some?
    ensures var k := Reach(b, path).value;
            Inner(b, path[..k]).Some? && (k < |path| ==> Lookup(Inner(b, path[..k]).value, path[k]).None?)
    decreases |path|
  {
    if path != [] && Lookup(b, path[0]).Some? {
      ReachedInner(Lookup(b, path[0]).value.body, path[1..]);
      var k := Reach(b, path).value;
      assert path[..k][1..] == path[1..][..k - 1];
    }
  }

  lemma {:induction false} InnerIsReached(b: Body, path: seq<Bytes>)
    requires Inner(b, path).Some?
    ensures Reach(b, path) == Some(|path|)
    decreases |path|
  {
    if path != [] {
      InnerIsReached(Lookup(b, path[0]).value.body, path[1..]);
    }
  }

  lemma {:induction false} ContainerAt(raw: Bytes, i: nat, b: Body, path: seq<Bytes>)
    requires At(raw, i, ValueText(Braces(b))) && BodyOk(b, true) && Inner(b, path).Some?
    ensures var c := Inner(b, path).value; BodyOk(c, true) && At(raw, BraceAt(b, i, path), ValueText(Braces(c)))
    decreases |path|
  {
    if path != [] {
      BodyInside(raw, i, Braces(b));
      LocatedAt(raw, i + 1, b, path[0]);
      ContainerAt(raw, Locate(b, i + 1, path[0]).value.valueStart, Lookup(b, path[0]).value.body, path[1..]);
    }
  }

  lemma ReachStep(b: Body, i: nat, path: seq<Bytes>, v: Value, k: nat)
    requires path != [] && Lookup(b, path[0]) == Some(v) && v.Braces?
    requires k <= |path| - 1 && Inner(v.body, path[1..][..k]).Some?
    ensures Inner(b, path[..k + 1]).Some?
    ensures BraceAt(b, i, path[..k + 1]) ==
            BraceAt(v.body, Locate(b, i + 1, path[0]).value.valueStart, path[1..][..k])
  {
    assert path[..k + 1][1..] == path[1..][..k];
  }

  // One level of resolveJSONContainer.
  lemma ResolveStep(raw: Bytes, i: nat, b: Body, path: seq<Bytes>, depth: nat)
    requires At(raw, i, ValueText(Braces(b))) && BodyOk(b, true) && depth < |path| && i < |raw|
    requires ReadsTo(b, path[depth])
    ensures match Lookup(b, path[depth])
            case None => ResolveFrom(raw, i, path, depth) == Ok(Place(i, depth))
            case Some(Braces(sub)) =>
              var j := Locate(b, i + 1, path[depth]).value.valueStart;
              && j < |raw| && At(raw, j, ValueText(Braces(sub))) && BodyOk(sub, true)
              && ResolveFrom(raw, i, path, depth) == ResolveFrom(raw, j, path, depth + 1)
            case Some(_) => ResolveFrom(raw, i, path, depth) == Refused(NotAContainer)
  {
    hide At, ValueText, BodyOk, Find, Locate, Lookup;
    FindsInObject(raw, i, b, path[depth]);
    if Lookup(b, path[depth]).Some? {
      ValueFound(raw, i, b, path[depth]);
      if Lookup(b, path[depth]).value.Braces? {
        BracesOk(Lookup(b, path[depth]).value);
      }
    }
  }

  lemma InnerNothing(b: Body, i: nat)
    ensures Inner(b, []) == Some(b) && BraceAt(b, i, []) == i
  {
  }

  // resolveJSONContainer finds the deepest object of the path that exists.
  lemma {:induction false} ResolvesFrom(raw: Bytes, i: nat, b: Body, path: seq<Bytes>, depth: nat)
    requires At(raw, i, ValueText(Braces(b))) && BodyOk(b, true) && depth <= |path| && i < |raw|
    requires Readable(b, path[depth..])
    ensures match Reach(b, path[depth..])
            case None => ResolveFrom(raw, i, path, depth) == Refused(NotAContainer)
            case Some(k) =>
              Inner(b, path[depth..][..k]).Some?
              && ResolveFrom(raw, i, path, depth) == Ok(Place(BraceAt(b, i, path[depth..][..k]), depth + k))
    decreases |path| - depth
  {
    hide *;
    var rest := path[depth..];
    assert rest[..0] == [];
    InnerNothing(b, i);
    if depth == |path| {
      ResolvesHere(raw, i, path, depth, b);
    } else {
      assert rest[1..] == path[depth + 1..] && rest[0] == path[depth];
      ReadableUnfolds(b, rest);
      ResolveStep(raw, i, b, path, depth);
      ReachUnfolds(b, rest);
      var v := Lookup(b, path[depth]);
      if v.Some? && v.value.Braces? {
        ResolvesFrom(raw, Locate(b, i + 1, path[depth]).value.valueStart, v.value.body, path, depth + 1);
        var inner := Reach(v.value.body, rest[1..]);
        if inner.Some? {
          ReachStep(b, i, rest, v.value, inner.value);
        }
      }
    }
  }

  lemma ResolvesHere(raw: Bytes, i: nat, path: seq<Bytes>, depth: nat, b: Body)
    requires i < |raw| && depth == |path|
    ensures ResolveFrom(raw, i, path, depth) == Ok(Place(i, depth)) && Reach(b, path[depth..]) == Some(0)
  {
  }

  lemma ReadableUnfolds(b: Body, path: seq<Bytes>)
    requires path != []
    ensures Readable(b, path) <==>
              && ReadsTo(b, path[0])
              && var v := Lookup(b, path[0]);
                 v.Some? && v.value.Braces? ==> Readable(v.value.body, path[1..])
  {
    hide Lookup, ReadsTo;
  }

  lemma ReachUnfolds(b: Body, path: seq<Bytes>)
    requires path != []
    ensures Reach(b, path) ==
            match Lookup(b, path[0])
            case None => Some(0)
            case Some(Braces(sub)) => (match Reach(sub, path[1..]) case None => None case Some(k) => Some(k + 1))
            case Some(_) => None
  {
    hide Lookup;
  }

  lemma BracesOk(v: Value)
    requires ValueOk(v) && v.Braces?
    ensures BodyOk(v.body, true) && v == Braces(v.body)
  {
  }

  lemma ValueFound(raw: Bytes, i: nat, b: Body, name: Bytes)
    requires At(raw, i, ValueText(Braces(b))) && BodyOk(b, true) && Lookup(b, name).Some?
    ensures var v, j := Lookup(b, name).value, Locate(b, i + 1, name).value.valueStart;
            j < |raw| && At(raw, j, ValueText(v)) && ValueOk(v) && (raw[j] == LBRACE <==> v.Braces?)
  {
    BodyInside(raw, i, Braces(b));
    LocatedAt(raw, i + 1, b, name);
    ValueStarts(raw, Locate(b, i + 1, name).value.valueStart, Lookup(b, name).value);
  }

  function RootAt(d: Doc): nat {
    |GapsText(d.before)|
  }

  lemma DocAt(d: Doc)
    ensures At(DocText(d), RootAt(d), ValueText(Braces(d.body)))
    ensures At(DocText(d), 0, GapsText(d.before))
  {
    var raw := DocText(d);
    AtConcat(raw, 0, GapsText(d.before), ValueText(Braces(d.body)) + d.after);
    AtConcat(raw, RootAt(d), ValueText(Braces(d.body)), d.after);
  }

  lemma RootFound(d: Doc)
    requires DocOk(d)
    ensures SkipSpace(DocText(d), 0) == RootAt(d) < |DocText(d)| && DocText(d)[RootAt(d)] == LBRACE
  {
    hide *;
    DocAt(d);
    RootParts(d);
    GapsAt(DocText(d), 0, d.before);
    ValueStarts(DocText(d), RootAt(d), Braces(d.body));
  }

  lemma RootParts(d: Doc)
    requires DocOk(d)
    ensures GapsOk(d.before) && ValueOk(Braces(d.body)) && RootAt(d) == |GapsText(d.before)|
  {
  }

  lemma ResolvesInDoc(d: Doc, path: seq<Bytes>)
    requires DocOk(d) && Readable(d.body, path)
    ensures match Reach(d.body, path)
            case None => Resolve(DocText(d), path) == Refused(NotAContainer)
            case Some(k) =>
              Inner(d.body, path[..k]).Some?
              && Resolve(DocText(d), path) == Ok(Place(BraceAt(d.body, RootAt(d), path[..k]), k))
  {
    RootFound(d);
    DocAt(d);
    assert path[0..] == path;
    ResolvesFrom(DocText(d), RootAt(d), d.body, path, 0);
  }

  // ---------------------------------------------------------------- names along a path

  // What a path of names leads to: a value, an object without the last name, the point where the
  // objects of the path end, or a member on the way that is no object.
  datatype Sought = Holds(value: Value) | NoMember | NoContainer(depth: nat) | NotObject

  function Deeper(s: Sought): Sought {
    if s.NoContainer? then NoContainer(s.depth + 1) else s
  }

  function Seek(b: Body, names: seq<Bytes>): Sought
    requires names != []
    decreases |names|
  {
    match Lookup(b, names[0])
    case None => if |names| == 1 then NoMember else NoContainer(0)
    case Some(v) =>
      if |names| == 1 then Holds(v)
      else match v
        case Braces(sub) => Deeper(Seek(sub, names[1..]))
        case _ => NotObject
  }

  lemma {:induction false} LastName(b: Body, path: seq<Bytes>, name: Bytes)
    ensures Seek(b, path + [name]) ==
            match Inner(b, path)
            case Some(c) => (match Lookup(c, name) case Some(v) => Holds(v) case None => NoMember)
            case None => (match Reach(b, path) case Some(k) => NoContainer(k) case None => NotObject)
    ensures Readable(b, path + [name]) <==>
              Readable(b, path) && (Inner(b, path).Some? ==> ReadsTo(Inner(b, path).value, name))
    decreases |path|
  {
    hide Lookup, ReadsTo;
    var names := path + [name];
    if path == [] {
      assert names[1..] == [];
    } else {
      assert names[1..] == path[1..] + [name];
      var v := Lookup(b, path[0]);
      if v.Some? && v.value.Braces? {
        LastName(v.value.body, path[1..], name);
      }
    }
  }

  lemma {:induction false} NotInside(b: Body, path: seq<Bytes>)
    ensures Inner(b, path).Some? <==> Reach(b, path) == Some(|path|)
    decreases |path|
  {
    hide Lookup;
    if path != [] {
      var v := Lookup(b, path[0]);
      if v.Some? && v.value.Braces? {
        NotInside(v.value.body, path[1..]);
      }
    }
  }

  // Where findJSONMember finds a name, once resolveJSONContainer has found the whole path.
  function FindAt(raw: Bytes, path: seq<Bytes>, name: Bytes): Option<Span> {
    match Resolve(raw, path)
    case Refused(_) => None
    case Ok(place) =>
      if place.depth < |path| then None
      else match Find(raw, place.brace, name)
        case Refused(_) => None
        case Ok(found) => found
  }

  // What a span found in a document covers: the value, and blanks behind it if it is a scalar.
  ghost predicate Covers(raw: Bytes, span: Span, v: Value) {
    && span.valueStart + |ValueText(v)| <= span.valueEnd <= |raw|
    && raw[span.valueStart..span.valueStart + |ValueText(v)|] == ValueText(v)
    && (forall i :: span.valueStart + |ValueText(v)| <= i < span.valueEnd ==> IsSpace(raw[i]))
    && (!v.Scalar? ==> span.valueEnd == span.valueStart + |ValueText(v)|)
  }

  ghost predicate Finds(raw: Bytes, path: seq<Bytes>, name: Bytes, v: Value) {
    FindAt(raw, path, name).Some? && Covers(raw, FindAt(raw, path, name).value, v)
  }

  // The path leads to an object that can be read to its end, and the name is not in it.
  predicate Lacks(raw: Bytes, path: seq<Bytes>, name: Bytes) {
    && Resolve(raw, path).Ok? && Resolve(raw, path).value.depth == |path|
    && Find(raw, Resolve(raw, path).value.brace, name) == Ok(None)
  }

  // resolveJSONContainer and findJSONMember answer what was sought.
  ghost predicate Shows(raw: Bytes, path: seq<Bytes>, name: Bytes, s: Sought) {
    match s
    case Holds(v) => Finds(raw, path, name, v)
    case NoMember => Lacks(raw, path, name)
    case NoContainer(k) => k < |path| && Resolve(raw, path).Ok? && Resolve(raw, path).value.depth == k
    case NotObject => Resolve(raw, path) == Refused(NotAContainer)
  }

  lemma {:induction false} BlanksAreSpace(raw: Bytes, i: nat, b: Body)
    requires At(raw, i, BodyText(b)) && BodyOk(b, true)
    ensures i + BlankRun(b) <= |raw| && forall k :: i <= k < i + BlankRun(b) ==> IsSpace(raw[k])
    decreases b
  {
    hide At, BodyOk, BodyText, PieceOk, PieceText;
    AtFits(raw, i, BodyText(b));
    if b.Next? && b.piece.Space? && b.piece.gap.Blank? {
      BodyParts(raw, i, b);
      BlankOk(b.piece);
      AtIndex(raw, i, PieceText(b.piece), 0);
      BlanksAreSpace(raw, i + 1, b.rest);
    }
  }

  lemma {:induction false} LocatedCovers(raw: Bytes, i: nat, b: Body, name: Bytes)
    requires At(raw, i, BodyText(b)) && BodyOk(b, true) && Lookup(b, name).Some?
    ensures Covers(raw, Locate(b, i, name).value, Lookup(b, name).value)
    decreases b
  {
    hide At, BodyOk, PieceOk, BodyText, PieceText, Covers;
    BodyParts(raw, i, b);
    if IsField(b.piece, name) {
      FieldCovers(raw, i, b);
    } else {
      LocatedCovers(raw, i + |PieceText(b.piece)|, b.rest, name);
    }
  }

  lemma FieldCovers(raw: Bytes, i: nat, b: Body)
    requires At(raw, i, BodyText(b)) && BodyOk(b, true) && b.Next? && b.piece.Field?
    ensures Covers(raw, Locate(b, i, b.piece.key).value, b.piece.value)
  {
    hide At, BodyOk, PieceOk, BodyText, PieceText, HeadText, ValueText, BlankRun;
    var p := b.piece;
    BodyParts(raw, i, b);
    FieldParts(raw, i, p);
    AtSlice(raw, i + |HeadText(p.key, p.before, p.after)|, ValueText(p.value));
    BlanksAreSpace(raw, i + |PieceText(p)|, b.rest);
  }

  // The object at the end of a path that exists, and a name looked up in it.
  lemma FindsInContainer(d: Doc, path: seq<Bytes>, name: Bytes)
    requires DocOk(d) && Readable(d.body, path) && Inner(d.body, path).Some?
    requires ReadsTo(Inner(d.body, path).value, name)
    ensures var c, brace := Inner(d.body, path).value, BraceAt(d.body, RootAt(d), path);
            && Resolve(DocText(d), path) == Ok(Place(brace, |path|))
            && Find(DocText(d), brace, name) == Ok(Locate(c, brace + 1, name))
            && (Lookup(c, name).Some? ==>
                  Covers(DocText(d), Locate(c, brace + 1, name).value, Lookup(c, name).value))
  {
    hide *;
    InnerIsReached(d.body, path);
    ResolvesInDoc(d, path);
    assert path[..|path|] == path;
    ContainerInDoc(d, path);
    var c, brace := Inner(d.body, path).value, BraceAt(d.body, RootAt(d), path);
    FindsInObject(DocText(d), brace, c, name);
    BodyInside(DocText(d), brace, Braces(c));
    if Lookup(c, name).Some? {
      LocatedCovers(DocText(d), brace + 1, c, name);
    }
  }

  // What is found along a path that can be read is what the tree holds there.
  lemma FindsWhatIsThere(d: Doc, path: seq<Bytes>, name: Bytes)
    requires DocOk(d) && Readable(d.body, path + [name])
    ensures Shows(DocText(d), path, name, Seek(d.body, path + [name]))
  {
    hide *;
    LastName(d.body, path, name);
    NotInside(d.body, path);
    ResolvesInDoc(d, path);
    if Inner(d.body, path).Some? {
      var c, brace := Inner(d.body, path).value, BraceAt(d.body, RootAt(d), path);
      FindsInContainer(d, path, name);
      LocatesIffLookup(c, brace + 1, name);
      FindAtIs(DocText(d), path, name);
      LacksIs(DocText(d), path, name);
      if Lookup(c, name).Some? {
        FindsIs(DocText(d), path, name, Lookup(c, name).value);
      }
    }
    ShowsIs(DocText(d), path, name, Seek(d.body, path + [name]));
  }

  lemma LacksIs(raw: Bytes, path: seq<Bytes>, name: Bytes)
    ensures Lacks(raw, path, name) <==>
              && Resolve(raw, path).Ok? && Resolve(raw, path).value.depth == |path|
              && Find(raw, Resolve(raw, path).value.brace, name) == Ok(None)
  {
    hide Resolve, Find;
  }

  lemma ShowsIs(raw: Bytes, path: seq<Bytes>, name: Bytes, s: Sought)
    ensures Shows(raw, path, name, s) <==>
              match s
              case Holds(v) => Finds(raw, path, name, v)
              case NoMember => Lacks(raw, path, name)
              case NoContainer(k) => k < |path| && Resolve(raw, path).Ok? && Resolve(raw, path).value.depth == k
              case NotObject => Resolve(raw, path) == Refused(NotAContainer)
  {
    hide Resolve, Lacks, Finds;
  }

  lemma FindAtIs(raw: Bytes, path: seq<Bytes>, name: Bytes)
    ensures match Resolve(raw, path)
            case Refused(_) => FindAt(raw, path, name) == None
            case Ok(place) =>
              if place.depth < |path| then FindAt(raw, path, name) == None
              else match Find(raw, place.brace, name)
                case Refused(_) => FindAt(raw, path, name) == None
                case Ok(found) => FindAt(raw, path, name) == found
  {
    hide Resolve, Find;
  }

  lemma FindsIs(raw: Bytes, path: seq<Bytes>, name: Bytes, v: Value)
    ensures Finds(raw, path, name, v) <==>
              FindAt(raw, path, name).Some? && Covers(raw, FindAt(raw, path, name).value, v)
  {
    hide FindAt, Covers;
  }

  lemma ContainerInDoc(d: Doc, path: seq<Bytes>)
    requires DocOk(d) && Inner(d.body, path).Some?
    ensures var brace, c := BraceAt(d.body, RootAt(d), path), Inner(d.body, path).value;
            && BodyOk(c, true) && At(DocText(d), brace, ValueText(Braces(c)))
            && brace < |DocText(d)| && DocText(d)[brace] == LBRACE
  {
    DocAt(d);
    ContainerAt(DocText(d), RootAt(d), d.body, path);
    BodyInside(DocText(d), BraceAt(d.body, RootAt(d), path), Braces(Inner(d.body, path).value));
  }
}
