// What is found after removeJSONMember: the name is gone and every other name is found as before, if and
// only if the comment a cut may open takes nothing in and no scalar in front of the cut is left open.

module JsoncRemovalTheorems {
  import opened ByteSeqs
  import opened JsonGrammar
  import opened JsoncEdit
  import opened JsoncInsertion
  import opened JsoncLaws
  import opened JsoncPaths
  import opened JsoncReads
  import opened JsoncRemoval
  import opened JsoncRemovedBody
  import opened JsoncScan
  import opened JsoncTree
  import opened JsoncUnclosed
  import opened Options
  import opened Results

  // ---------------------------------------------------------------- the document without the member

  // What the theorems ask: a well-formed document that can be read along the path, and a member there.
  ghost predicate Removable(d: Doc, path: seq<Bytes>, name: Bytes) {
    && DocOk(d) && Readable(d.body, path + [name])
    && Inner(d.body, path).Some? && Lookup(Inner(d.body, path).value, name).Some?
  }

  lemma RemovableParts(d: Doc, path: seq<Bytes>, name: Bytes)
    requires Removable(d, path, name)
    ensures DocOk(d) && Readable(d.body, path + [name]) && Readable(d.body, path)
    ensures Inner(d.body, path).Some? && Lookup(Inner(d.body, path).value, name).Some?
    ensures ReadsTo(Inner(d.body, path).value, name)
  {
    hide DocOk, Readable, Inner, Lookup, ReadsTo;
    LastName(d.body, path, name);
  }

  function WithoutMember(d: Doc, path: seq<Bytes>, name: Bytes): Option<Doc>
    requires Inner(d.body, path).Some? && Lookup(Inner(d.body, path).value, name).Some?
  {
    match Removed(Inner(d.body, path).value, name)
    case None => None
    case Some(n) => Some(d.(body := Rebuild(d.body, path, n)))
  }

  lemma WithoutIs(d: Doc, path: seq<Bytes>, name: Bytes)
    requires Inner(d.body, path).Some? && Lookup(Inner(d.body, path).value, name).Some?
    ensures match Removed(Inner(d.body, path).value, name)
            case None => WithoutMember(d, path, name) == None
            case Some(n) => WithoutMember(d, path, name) == Some(d.(body := Rebuild(d.body, path, n)))
  {
    hide Inner, Lookup, Removed, Rebuild;
  }

  // Removing a member that is there leaves the text in front of the cut and the text behind it; where
  // these make a body again, the textual edit is the edit of the tree. Removing one that is not there
  // changes nothing, and is refused exactly when the path leads through a member that is no object.
  lemma RemoveEditsTree(d: Doc, path: seq<Bytes>, name: Bytes)
    requires DocOk(d) && Readable(d.body, path + [name])
    ensures match Seek(d.body, path + [name])
            case NotObject => Remove(DocText(d), path, name) == Refused(NotAContainer)
            case Holds(_) => true
            case _ => Remove(DocText(d), path, name) == Ok(Removal(DocText(d), false))
    ensures Seek(d.body, path + [name]).Holds? ==>
              && Inner(d.body, path).Some? && Lookup(Inner(d.body, path).value, name).Some?
              && var c, from := Inner(d.body, path).value, BraceAt(d.body, RootAt(d), path) + 1;
              && from + |BodyText(c)| <= |DocText(d)|
              && Remove(DocText(d), path, name) ==
                 Ok(Removal(DocText(d)[..from] + CutText(CutOf(c, name)) + DocText(d)[from + |BodyText(c)|..], true))
              && (WithoutMember(d, path, name).Some? ==>
                    && DocOk(WithoutMember(d, path, name).value)
                    && Remove(DocText(d), path, name) ==
                       Ok(Removal(DocText(WithoutMember(d, path, name).value), true)))
  {
    hide *;
    LastName(d.body, path, name);
    NotInside(d.body, path);
    ResolvesInDoc(d, path);
    RemoveCases(DocText(d), path, name);
    if Inner(d.body, path).Some? {
      var c, brace := Inner(d.body, path).value, BraceAt(d.body, RootAt(d), path);
      FindsInContainer(d, path, name);
      LocatesIffLookup(c, brace + 1, name);
      if Lookup(c, name).Some? {
        IsRemovable(d, path, name);
        RemovesInContainer(d, path, name);
      }
    }
  }

  lemma IsRemovable(d: Doc, path: seq<Bytes>, name: Bytes)
    requires DocOk(d) && Readable(d.body, path + [name])
    requires Inner(d.body, path).Some? && Lookup(Inner(d.body, path).value, name).Some?
    ensures Removable(d, path, name)
  {
  }

  lemma RemoveCases(raw: Bytes, path: seq<Bytes>, name: Bytes)
    ensures match Resolve(raw, path)
            case Refused(e) => Remove(raw, path, name) == Refused(e)
            case Ok(place) =>
              if place.depth != |path| then Remove(raw, path, name) == Ok(Removal(raw, false))
              else match Find(raw, place.brace, name)
                case Refused(e) => Remove(raw, path, name) == Refused(e)
                case Ok(None) => Remove(raw, path, name) == Ok(Removal(raw, false))
                case Ok(Some(span)) =>
                  span.keyStart <= span.valueEnd <= |raw|
                  && Remove(raw, path, name) == Ok(Removal(CutSpan(raw, span), true))
  {
    hide Resolve, Find, CutSpan;
  }

  lemma RemovesInContainer(d: Doc, path: seq<Bytes>, name: Bytes)
    requires Removable(d, path, name)
    ensures var c, brace := Inner(d.body, path).value, BraceAt(d.body, RootAt(d), path);
            var from, span := brace + 1, Locate(Inner(d.body, path).value, brace + 1, name);
            && from + |BodyText(c)| <= |DocText(d)|
            && span.Some? && span.value.keyStart <= span.value.valueEnd <= |DocText(d)|
            && CutSpan(DocText(d), span.value) ==
               DocText(d)[..from] + CutText(CutOf(c, name)) + DocText(d)[from + |BodyText(c)|..]
            && (WithoutMember(d, path, name).Some? ==>
                  && DocOk(WithoutMember(d, path, name).value)
                  && CutSpan(DocText(d), span.value) == DocText(WithoutMember(d, path, name).value))
  {
    hide *;
    RemovableParts(d, path, name);
    ContainerInDoc(d, path);
    var raw, c, brace := DocText(d), Inner(d.body, path).value, BraceAt(d.body, RootAt(d), path);
    BodyInside(raw, brace, Braces(c));
    CutLeaves(raw, brace + 1, c, name);
    WithoutIs(d, path, name);
    RemovedIs(c, name);
    var k := CutOf(c, name);
    if WithoutMember(d, path, name).Some? {
      var n := Removed(c, name).value;
      RemovedText(k, Tail(k).value);
      RebuiltOk(d, path, n);
      DocRebuilt(d, path, n);
      BracesText(c);
      BracesText(n);
      BracesAround(raw, brace, BodyText(n), brace + 1 + |BodyText(c)|);
    }
  }

  // ---------------------------------------------------------------- remove, then find

  // Where the line ends that a cut in a comment opens: between pieces of the object or of one around it,
  // or behind the root object; and if it takes the closing brace in, no other stands behind the root.
  predicate Settled(d: Doc, path: seq<Bytes>, name: Bytes)
    requires Inner(d.body, path).Some? && Lookup(Inner(d.body, path).value, name).Some?
  {
    var k := CutOf(Inner(d.body, path).value, name);
    k.left.note.Some? ==>
      match LineOf(k.right)
      case Ends(_, _) => true
      case RunsOn => Settles(Ups(d.body, path)) && RBRACE !in d.after
      case Breaks => false
  }

  lemma SettledIs(d: Doc, path: seq<Bytes>, name: Bytes)
    requires Inner(d.body, path).Some? && Lookup(Inner(d.body, path).value, name).Some?
    requires Settled(d, path, name)
    ensures var c := Inner(d.body, path).value;
            var k := CutOf(c, name);
            if TakesBrace(k) then
              && Settles(Ups(d.body, path)) && RBRACE !in d.after && Removed(c, name) == None && !CutFits(c, name)
            else Removed(c, name).Some?
  {
    hide Inner, Lookup, CutOf, LineOf, Settles, Ups, Join, OpenEnd;
  }

  // The name is missing from an object that can be read to its end, which still holds every other member
  // with its value.
  ghost predicate OnlyGone(raw: Bytes, path: seq<Bytes>, name: Bytes, c: Body) {
    && Lacks(raw, path, name)
    && forall other: Bytes, v: Value :: other != name && Lookup(c, other) == Some(v) ==> Finds(raw, path, other, v)
  }

  lemma NotOnlyGone(raw: Bytes, path: seq<Bytes>, name: Bytes, c: Body, other: Bytes)
    requires other != name && Lookup(c, other).Some? && !Finds(raw, path, other, Lookup(c, other).value)
    ensures !OnlyGone(raw, path, name, c)
  {
    hide Lacks, Finds, Lookup;
  }

  // What is found after a removal: the name is gone and every other member of its object is still found
  // with its value, if and only if no member and no brace went into a comment and no scalar was left
  // open. Once a closing brace went into a comment, nothing is found in the whole document any more.
  lemma RemoveThenFind(d: Doc, path: seq<Bytes>, name: Bytes)
    requires Removable(d, path, name) && Settled(d, path, name)
    requires EveryScalarEnds(Inner(d.body, path).value) && DistinctKeys(Inner(d.body, path).value)
    ensures Remove(DocText(d), path, name).Ok? && Remove(DocText(d), path, name).value.removed
    ensures var c, edited := Inner(d.body, path).value, Remove(DocText(d), path, name).value.text;
            && (OnlyGone(edited, path, name, c) <==> CutFits(c, name))
            && (TakesBrace(CutOf(c, name)) ==> forall p: seq<Bytes>, n: Bytes :: Lost(edited, p, n))
  {
    hide *;
    RemovableParts(d, path, name);
    SoughtHere(d, path, name);
    RemoveEditsTree(d, path, name);
    SettledIs(d, path, name);
    var c := Inner(d.body, path).value;
    if TakesBrace(CutOf(c, name)) {
      BraceIsLost(d, path, name);
      LostIsNotFound(Remove(DocText(d), path, name).value.text, path, name);
      OnlyGoneLacks(Remove(DocText(d), path, name).value.text, path, name, c);
    } else {
      RemovedThenFound(d, path, name);
    }
  }

  lemma SoughtHere(d: Doc, path: seq<Bytes>, name: Bytes)
    requires Inner(d.body, path).Some? && Lookup(Inner(d.body, path).value, name).Some?
    ensures Seek(d.body, path + [name]) == Holds(Lookup(Inner(d.body, path).value, name).value)
  {
    hide Inner, Lookup, Seek;
    LastName(d.body, path, name);
  }

  lemma OnlyGoneLacks(raw: Bytes, path: seq<Bytes>, name: Bytes, c: Body)
    ensures OnlyGone(raw, path, name, c) ==> Lacks(raw, path, name)
  {
    hide Lacks, Finds, Lookup;
  }

  // Where the comment takes in a closing brace, everything is lost.
  lemma BraceIsLost(d: Doc, path: seq<Bytes>, name: Bytes)
    requires Removable(d, path, name) && TakesBrace(CutOf(Inner(d.body, path).value, name))
    requires Settles(Ups(d.body, path)) && RBRACE !in d.after
    ensures Remove(DocText(d), path, name).Ok?
    ensures forall p: seq<Bytes>, n: Bytes :: Lost(Remove(DocText(d), path, name).value.text, p, n)
  {
    hide *;
    RemovableParts(d, path, name);
    SoughtHere(d, path, name);
    RemoveEditsTree(d, path, name);
    var c := Inner(d.body, path).value;
    var k := CutOf(c, name);
    ContainerInDoc(d, path);
    var brace := BraceAt(d.body, RootAt(d), path);
    BodyInside(DocText(d), brace, Braces(c));
    CutLeaves(DocText(d), brace + 1, c, name);
    CutDocumentIs(d, path, k);
    TakesBraceIs(k);
    CutRootUnclosed(d, path, k);
    forall p: seq<Bytes>, n: Bytes ensures Lost(CutDocument(d, path, k), p, n) {
      UnclosedIsLost(CutDocument(d, path, k), RootAt(d), p, n);
    }
  }

  // The case in which the pieces around the cut make a body.
  lemma RemovedThenFound(d: Doc, path: seq<Bytes>, name: Bytes)
    requires Removable(d, path, name) && Removed(Inner(d.body, path).value, name).Some?
    requires EveryScalarEnds(Inner(d.body, path).value) && DistinctKeys(Inner(d.body, path).value)
    ensures Remove(DocText(d), path, name).Ok?
    ensures var c, edited := Inner(d.body, path).value, Remove(DocText(d), path, name).value.text;
            OnlyGone(edited, path, name, c) <==> CutFits(c, name)
  {
    hide *;
    RemovableParts(d, path, name);
    SoughtHere(d, path, name);
    RemoveEditsTree(d, path, name);
    WithoutIs(d, path, name);
    var c := Inner(d.body, path).value;
    var n := Removed(c, name).value;
    var edited := DocText(WithoutMember(d, path, name).value);
    RemovedIs(c, name);
    RemovedIsGone(c, name);
    if !EveryScalarEnds(n) {
      var other := FirstMisread(n);
      StillThere(c, name, other);
      MisreadInside(d, path, n, other, Lookup(c, other).value);
      NotOnlyGone(edited, path, name, c, other);
    } else if CutFits(c, name) {
      RemovedIsFound(d, path, n, name);
      forall other, v | other != name && Lookup(c, other) == Some(v) ensures Finds(edited, path, other, v) {
        RemovedKeeps(c, name, other);
        RemovedIsFound(d, path, n, other);
      }
      IsOnlyGone(edited, path, name, c);
    } else {
      var other := LostMember(c, name);
      RemovedIsFound(d, path, n, other);
      LacksFindsNot(edited, path, other, Lookup(c, other).value);
      NotOnlyGone(edited, path, name, c, other);
    }
  }

  lemma IsOnlyGone(raw: Bytes, path: seq<Bytes>, name: Bytes, c: Body)
    requires Lacks(raw, path, name)
    requires forall other: Bytes, v: Value ::
               other != name && Lookup(c, other) == Some(v) ==> Finds(raw, path, other, v)
    ensures OnlyGone(raw, path, name, c)
  {
    hide Lacks, Finds, Lookup;
  }

  lemma LacksFindsNot(raw: Bytes, path: seq<Bytes>, name: Bytes, v: Value)
    requires Lacks(raw, path, name)
    ensures !Finds(raw, path, name, v)
  {
    hide Resolve, Find, Covers;
  }

  // A name of a new body in which every scalar ends is found, or found missing, as the body says.
  lemma RemovedIsFound(d: Doc, path: seq<Bytes>, n: Body, name: Bytes)
    requires DocOk(d) && Readable(d.body, path) && Inner(d.body, path).Some?
    requires EveryScalarEnds(n) && DocOk(d.(body := Rebuild(d.body, path, n)))
    ensures var edited := DocText(d.(body := Rebuild(d.body, path, n)));
            match Lookup(n, name)
            case Some(v) => Finds(edited, path, name, v)
            case None => Lacks(edited, path, name)
  {
    hide *;
    var e := d.(body := Rebuild(d.body, path, n));
    ReadableReads(n, name);
    OneName(n, name);
    RebuildLeads(d.body, path, n, [name]);
    FindsWhatIsThere(e, path, name);
    ShowsIs(DocText(e), path, name, Seek(n, [name]));
  }

  lemma OneName(b: Body, name: Bytes)
    ensures Seek(b, [name]) == match Lookup(b, name) case Some(v) => Holds(v) case None => NoMember
    ensures Readable(b, [name]) == ReadsTo(b, name)
  {
    hide Lookup, ReadsTo;
  }

  // Every other name, anywhere in the document, is found after the removal exactly as before: with the
  // same value, or missing from an object that can be read, or behind the same missing object or member
  // that is no object.
  lemma RemoveKeepsOthers(d: Doc, path: seq<Bytes>, name: Bytes, otherPath: seq<Bytes>, other: Bytes)
    requires Removable(d, path, name) && CutFits(Inner(d.body, path).value, name)
    requires Apart(path + [name], otherPath + [other]) && Readable(d.body, otherPath + [other])
    ensures Remove(DocText(d), path, name).Ok? && Remove(DocText(d), path, name).value.removed
    ensures var s := Seek(d.body, otherPath + [other]);
            && Shows(DocText(d), otherPath, other, s)
            && Shows(Remove(DocText(d), path, name).value.text, otherPath, other, s)
  {
    hide *;
    RemovableParts(d, path, name);
    SoughtHere(d, path, name);
    RemoveEditsTree(d, path, name);
    WithoutIs(d, path, name);
    var c, names := Inner(d.body, path).value, otherPath + [other];
    RemovedIs(c, name);
    var n := Removed(c, name).value;
    ApartBehind(path, [name], names);
    if path <= names {
      RemovedSameBehind(c, name, names[|path|..]);
    }
    RebuildKeeps(d.body, path, n, names);
    var e := WithoutMember(d, path, name).value;
    SameBehindIs(d.body, e.body, names);
    FindsWhatIsThere(d, otherPath, other);
    FindsWhatIsThere(e, otherPath, other);
  }

  lemma RemovedSameBehind(c: Body, name: Bytes, names: seq<Bytes>)
    requires Lookup(c, name).Some? && CutFits(c, name)
    requires names != [] && Apart([name], names)
    ensures Removed(c, name).Some? && SameBehind(c, Removed(c, name).value, names)
    ensures Seek(Removed(c, name).value, names) == Seek(c, names)
  {
    NotThePrefix(name, names);
    RemovedKeeps(c, name, names[0]);
    hide Removed, CutFits, Lookup, ReadsTo;
  }
}
