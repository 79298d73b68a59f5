// A removal whose cut opens a comment that takes in the closing brace of the object: whichever object it
// is, the root object is never closed, and nothing is found any more.

module JsoncUnclosed {
  import opened ByteSeqs
  import opened JsonGrammar
  import opened JsoncEdit
  import opened JsoncInsertion
  import opened JsoncLaws
  import opened JsoncPaths
  import opened JsoncReads
  import opened JsoncRemoval
  import opened JsoncRemovedBody
  import opened JsoncScan
  import opened JsoncTree
  import opened Options
  import opened Results

  // ---------------------------------------------------------------- the text around an object

  // From behind the opening brace of a body to behind the opening brace at the end of a path.
  function DownText(b: Body, path: seq<Bytes>): Bytes
    requires Inner(b, path).Some?
    decreases |path|
  {
    if path == [] then []
    else
      var p := FirstField(b, path[0]);
      BodyText(Before(b, path[0]))
      + (HeadText(p.key, p.before, p.after) + ([LBRACE] + DownText(Lookup(b, path[0]).value.body, path[1..])))
  }

  // What follows the objects of a path, the innermost first.
  function Ups(b: Body, path: seq<Bytes>): seq<Body>
    requires Inner(b, path).Some?
    decreases |path|
  {
    if path == [] then []
    else Ups(Lookup(b, path[0]).value.body, path[1..]) + [After(b, path[0])]
  }

  // Bodies, each up to its closing brace, and what follows the last.
  function UpText(bodies: seq<Body>, after: Bytes): Bytes {
    if bodies == [] then after else BodyText(bodies[0]) + ([RBRACE] + UpText(bodies[1..], after))
  }

  ghost predicate BodiesOk(bodies: seq<Body>) {
    forall b <- bodies :: BodyOk(b, true)
  }

  lemma {:induction false} UpAppend(bodies: seq<Body>, last: Body, after: Bytes)
    ensures UpText(bodies + [last], after) == UpText(bodies, BodyText(last) + ([RBRACE] + after))
    decreases |bodies|
  {
    hide BodyText;
    if bodies == [] {
      assert ([] + [last])[1..] == [];
    } else {
      assert (bodies + [last])[1..] == bodies[1..] + [last];
      UpAppend(bodies[1..], last, after);
    }
  }

  lemma {:induction false} UpsOk(b: Body, path: seq<Bytes>)
    requires Inner(b, path).Some? && BodyOk(b, true)
    ensures |Ups(b, path)| == |path| && BodiesOk(Ups(b, path)) && BodyOk(Inner(b, path).value, true)
    decreases |path|
  {
    hide PieceOk, Lookup, After, BodyOk;
    if path != [] {
      SplitAtMember(b, path[0]);
      MemberOk(b, path[0]);
      UpsOk(Lookup(b, path[0]).value.body, path[1..]);
    }
  }

  lemma MemberOk(b: Body, name: Bytes)
    requires BodyOk(b, true) && Lookup(b, name).Some? && Lookup(b, name).value.Braces?
    ensures BodyOk(Before(b, name), true) && BodyOk(After(b, name), true)
    ensures BodyOk(Lookup(b, name).value.body, true)
    ensures var p := FirstField(b, name);
            CharsOk(p.key) && GapsOk(p.before) && GapsOk(p.after) && p.value == Lookup(b, name).value
  {
    SplitAtMember(b, name);
    FieldIsOk(FirstField(b, name));
    hide BodyOk, Before, After, FirstField, Lookup;
  }

  lemma FieldIsOk(p: Piece)
    requires p.Field? && PieceOk(p, true)
    ensures CharsOk(p.key) && GapsOk(p.before) && GapsOk(p.after)
    ensures p.value.Braces? ==> BodyOk(p.value.body, true)
  {
    hide CharsOk, GapsOk, BodyOk;
  }

  // The text of an object is the way down to the object at the end of a path, and the way up from it.
  lemma {:induction false} AroundText(b: Body, path: seq<Bytes>, after: Bytes)
    requires Inner(b, path).Some?
    ensures ValueText(Braces(b)) + after ==
            [LBRACE] + DownText(b, path) + UpText([Inner(b, path).value] + Ups(b, path), after)
    decreases |path|
  {
    hide *;
    BracesText(b);
    if path == [] {
      AroundNothing(b, path, after);
    } else {
      AroundUnfolds(b, path);
      var name, sub := path[0], Lookup(b, path[0]).value.body;
      var p, rest := FirstField(b, name), After(b, name);
      MemberText(b, name);
      var behind := BodyText(rest) + ([RBRACE] + after);
      AroundText(sub, path[1..], behind);
      var inner := [Inner(b, path).value] + Ups(sub, path[1..]);
      UpAppend(inner, rest, after);
      assert inner + [rest] == [Inner(b, path).value] + Ups(b, path);
      AroundAssembles(BodyText(Before(b, name)), HeadText(p.key, p.before, p.after), ValueText(Braces(sub)),
                      BodyText(rest), after, DownText(sub, path[1..]), UpText(inner, behind));
    }
  }

  lemma AroundNothing(b: Body, path: seq<Bytes>, after: Bytes)
    requires path == []
    ensures Inner(b, path) == Some(b) && DownText(b, path) == [] && Ups(b, path) == []
    ensures [LBRACE] + BodyText(b) + [RBRACE] + after == [LBRACE] + [] + UpText([b] + [], after)
  {
    hide BodyText;
    assert ([b] + [])[1..] == [];
    assert UpText([b] + [], after) == BodyText(b) + ([RBRACE] + after);
  }

  lemma AroundUnfolds(b: Body, path: seq<Bytes>)
    requires path != [] && Inner(b, path).Some?
    ensures Lookup(b, path[0]).Some? && Lookup(b, path[0]).value.Braces?
    ensures var sub, p := Lookup(b, path[0]).value.body, FirstField(b, path[0]);
            && Inner(sub, path[1..]) == Inner(b, path)
            && DownText(b, path) ==
               BodyText(Before(b, path[0]))
               + (HeadText(p.key, p.before, p.after) + ([LBRACE] + DownText(sub, path[1..])))
            && Ups(b, path) == Ups(sub, path[1..]) + [After(b, path[0])]
  {
    hide Lookup, FirstField, Before, After, BodyText, HeadText;
  }

  lemma MemberText(b: Body, name: Bytes)
    requires Lookup(b, name).Some? && Lookup(b, name).value.Braces?
    ensures var p, sub := FirstField(b, name), Lookup(b, name).value.body;
            BodyText(b) ==
            BodyText(Before(b, name))
            + (HeadText(p.key, p.before, p.after) + ValueText(Braces(sub)) + BodyText(After(b, name)))
  {
    SplitAtMember(b, name);
    var p := FirstField(b, name);
    hide Lookup, FirstField, Before, After, HeadText, ValueText;
    JoinText(Before(b, name), Next(p, After(b, name)));
    assert PieceText(p) == HeadText(p.key, p.before, p.after) + ValueText(p.value);
  }

  lemma AroundAssembles(before: Bytes, head: Bytes, sub: Bytes, rest: Bytes, after: Bytes, down: Bytes, up: Bytes)
    requires sub + (rest + ([RBRACE] + after)) == [LBRACE] + down + up
    ensures [LBRACE] + (before + (head + sub + rest)) + [RBRACE] + after ==
            [LBRACE] + (before + (head + ([LBRACE] + down))) + up
  {
    assert [LBRACE] + (before + (head + sub + rest)) + [RBRACE] + after ==
           [LBRACE] + before + head + (sub + (rest + ([RBRACE] + after)));
    assert [LBRACE] + before + head + ([LBRACE] + down + up) ==
           [LBRACE] + (before + (head + ([LBRACE] + down))) + up;
  }

  // The brace at the end of the path stands at the end of the way down.
  lemma {:induction false} BraceBehindDown(b: Body, i: nat, path: seq<Bytes>)
    requires Inner(b, path).Some?
    ensures BraceAt(b, i, path) == i + |DownText(b, path)|
    decreases |path|
  {
    hide Lookup, Locate, FirstField, Before, After, BodyText, HeadText;
    if path != [] {
      MemberStarts(b, i + 1, path[0]);
      BraceBehindDown(Lookup(b, path[0]).value.body, Locate(b, i + 1, path[0]).value.valueStart, path[1..]);
    }
  }

  lemma {:induction false} MemberStarts(b: Body, i: nat, name: Bytes)
    requires Lookup(b, name).Some?
    ensures Locate(b, i, name).Some?
    ensures var p := FirstField(b, name);
            Locate(b, i, name).value.valueStart ==
            i + |BodyText(Before(b, name))| + |HeadText(p.key, p.before, p.after)|
    decreases b
  {
    hide HeadText, ValueText, PieceText;
    if IsField(b.piece, name) {
      assert BodyText(End) == [];
    } else {
      MemberStarts(b.rest, i + |PieceText(b.piece)|, name);
    }
  }

  // ---------------------------------------------------------------- the search for the closing brace

  // On the way down the depth grows by one for every object.
  lemma {:induction false} CloseDown(raw: Bytes, i: nat, b: Body, path: seq<Bytes>, depth: int)
    requires Inner(b, path).Some? && BodyOk(b, true) && At(raw, i, DownText(b, path)) && depth >= 1
    ensures Close(raw, i, LBRACE, RBRACE, depth) ==
            Close(raw, i + |DownText(b, path)|, LBRACE, RBRACE, depth + |path|)
    decreases |path|
  {
    hide *;
    BracesMatch();
    if path == [] {
      NoDown(b, path);
    } else {
      AroundUnfolds(b, path);
      MemberOk(b, path[0]);
      var p, sub := FirstField(b, path[0]), Lookup(b, path[0]).value.body;
      var before, head := BodyText(Before(b, path[0])), HeadText(p.key, p.before, p.after);
      var down := DownText(sub, path[1..]);
      AtConcat(raw, i, before, head + ([LBRACE] + down));
      AtConcat(raw, i + |before|, head, [LBRACE] + down);
      AtConcat(raw, i + |before| + |head|, [LBRACE], down);
      AtIndex(raw, i + |before| + |head|, [LBRACE], 0);
      CloseAfterBody(raw, i, Before(b, path[0]), true, LBRACE, RBRACE, depth);
      CloseAfterHead(raw, i + |before|, p.key, p.before, p.after, LBRACE, RBRACE, depth);
      CloseAtOpen(raw, i + |before| + |head|, depth);
      CloseDown(raw, i + |before| + |head| + 1, sub, path[1..], depth + 1);
    }
  }

  lemma BracesMatch()
    ensures IsBrackets(LBRACE, RBRACE)
  {
  }

  lemma NoDown(b: Body, path: seq<Bytes>)
    requires path == []
    ensures |DownText(b, path)| == 0
  {
  }

  lemma CloseAtOpen(raw: Bytes, i: nat, depth: int)
    requires i < |raw| && raw[i] == LBRACE
    ensures Close(raw, i, LBRACE, RBRACE, depth) == Close(raw, i + 1, LBRACE, RBRACE, depth + 1)
  {
  }

  lemma CloseAtClosing(raw: Bytes, i: nat, depth: int)
    requires i < |raw| && raw[i] == RBRACE && depth > 1
    ensures Close(raw, i, LBRACE, RBRACE, depth) == Close(raw, i + 1, LBRACE, RBRACE, depth - 1)
  {
  }

  lemma CloseAtBreak(raw: Bytes, i: nat, depth: int)
    requires i < |raw| && raw[i] == LF
    ensures Close(raw, i, LBRACE, RBRACE, depth) == Close(raw, i + 1, LBRACE, RBRACE, depth)
  {
  }

  // Without a closing brace nothing is closed.
  lemma {:induction false} CloseNever(raw: Bytes, i: nat, depth: int)
    requires forall k :: i <= k < |raw| ==> raw[k] != RBRACE
    ensures Close(raw, i, LBRACE, RBRACE, depth) == None
    decreases |raw| - i
  {
    hide SkipSpace, QuoteEnd, CommentAt;
    if i < |raw| {
      if raw[i] == QUOTE {
        if QuoteEnd(raw, i + 1).Some? {
          CloseNever(raw, QuoteEnd(raw, i + 1).value, depth);
        }
      } else if CommentAt(raw, i) {
        if SkipSpace(raw, i) > i {
          CloseNever(raw, SkipSpace(raw, i), depth);
        }
      } else {
        CloseNever(raw, i + 1, depth);
        CloseNever(raw, i + 1, depth + 1);
      }
    }
  }

  lemma {:induction false} LineRuns(raw: Bytes, i: nat, s: Bytes)
    requires At(raw, i, s) && LF !in s
    ensures i + |s| <= |raw| && LineEnd(raw, i) == LineEnd(raw, i + |s|)
    decreases |s|
  {
    if s != [] {
      AtIndex(raw, i, s, 0);
      assert s == [s[0]] + s[1..];
      AtConcat(raw, i, [s[0]], s[1..]);
      LineRuns(raw, i + 1, s[1..]);
    }
  }

  lemma LineStops(raw: Bytes, i: nat)
    requires i < |raw| && raw[i] == LF
    ensures LineEnd(raw, i) == i
  {
  }

  // The search passes a line comment to the end of its line.
  lemma CloseAfterMark(raw: Bytes, j: nat, depth: int)
    requires At(raw, j, LINE_MARK)
    ensures j <= |raw| && Close(raw, j, LBRACE, RBRACE, depth) == Close(raw, LineEnd(raw, j), LBRACE, RBRACE, depth)
  {
    AtIndex(raw, j, LINE_MARK, 0);
    AtIndex(raw, j, LINE_MARK, 1);
    var end := LineEnd(raw, j);
    assert SkipSpace(raw, j) == SkipSpace(raw, end);
    hide SkipSpace, Close, At;
    CloseSkipsSpace(raw, j, LBRACE, RBRACE, depth);
    CloseSkipsSpace(raw, end, LBRACE, RBRACE, depth);
  }

  lemma UpUnfolds(bodies: seq<Body>, after: Bytes)
    requires bodies != []
    ensures UpText(bodies, after) == BodyText(bodies[0]) + ([RBRACE] + UpText(bodies[1..], after))
    ensures BodiesOk(bodies) ==> BodyOk(bodies[0], true) && BodiesOk(bodies[1..])
  {
    hide BodyText, BodyOk;
  }

  lemma NoUps(after: Bytes)
    ensures UpText([], after) == after
  {
  }

  lemma AtEnd(raw: Bytes, i: nat, after: Bytes)
    requires At(raw, i, after) && i + |after| == |raw| && RBRACE !in after
    ensures forall k :: i <= k < |raw| ==> raw[k] != RBRACE
  {
    forall k | i <= k < |raw| ensures raw[k] != RBRACE {
      AtIndex(raw, i, after, k - i);
    }
  }

  // More objects are open than braces are left.
  lemma {:induction false} UnclosedUp(raw: Bytes, i: nat, bodies: seq<Body>, after: Bytes, depth: int)
    requires At(raw, i, UpText(bodies, after)) && i + |UpText(bodies, after)| == |raw| && BodiesOk(bodies)
    requires RBRACE !in after && depth > |bodies|
    ensures Close(raw, i, LBRACE, RBRACE, depth) == None
    decreases |bodies|
  {
    hide *;
    if bodies == [] {
      NoUps(after);
      AtEnd(raw, i, after);
      CloseNever(raw, i, depth);
    } else {
      UpUnfolds(bodies, after);
      var text, up := BodyText(bodies[0]), UpText(bodies[1..], after);
      AtConcat(raw, i, text, [RBRACE] + up);
      AtConcat(raw, i + |text|, [RBRACE], up);
      AtIndex(raw, i + |text|, [RBRACE], 0);
      BracesMatch();
      CloseAfterBody(raw, i, bodies[0], true, LBRACE, RBRACE, depth);
      CloseAtClosing(raw, i + |text|, depth);
      UnclosedUp(raw, i + |text| + 1, bodies[1..], after, depth - 1);
    }
  }

  // The line ends between pieces, or behind the root object.
  predicate Settles(bodies: seq<Body>) {
    bodies == [] ||
      match LineOf(bodies[0])
      case Ends(_, _) => true
      case RunsOn => Settles(bodies[1..])
      case Breaks => false
  }

  lemma SettlesOn(bodies: seq<Body>)
    requires bodies != [] && Settles(bodies)
    ensures !LineOf(bodies[0]).Breaks? && (LineOf(bodies[0]).RunsOn? ==> Settles(bodies[1..]))
  {
    hide LineOf;
  }

  lemma NoBraceBreaks()
    ensures LF !in [RBRACE] && LF !in LINE_MARK
  {
  }

  // Wherever the line ends that took a brace in.
  lemma {:induction false} UnclosedLine(raw: Bytes, i: nat, bodies: seq<Body>, after: Bytes, depth: int)
    requires At(raw, i, UpText(bodies, after)) && i + |UpText(bodies, after)| == |raw| && BodiesOk(bodies)
    requires RBRACE !in after && depth > |bodies| && Settles(bodies)
    ensures i <= |raw| && Close(raw, LineEnd(raw, i), LBRACE, RBRACE, depth) == None
    decreases |bodies|
  {
    hide *;
    if bodies == [] {
      NoUps(after);
      AtEnd(raw, i, after);
      CloseNever(raw, LineEnd(raw, i), depth);
    } else {
      UpUnfolds(bodies, after);
      SettlesOn(bodies);
      LineText(bodies[0]);
      var text, up := BodyText(bodies[0]), UpText(bodies[1..], after);
      AtConcat(raw, i, text, [RBRACE] + up);
      AtConcat(raw, i + |text|, [RBRACE], up);
      if LineOf(bodies[0]).RunsOn? {
        NoBraceBreaks();
        LineRuns(raw, i, text);
        LineRuns(raw, i + |text|, [RBRACE]);
        UnclosedLine(raw, i + |text| + 1, bodies[1..], after, depth);
      } else {
        LineEndsHere(raw, i, bodies, after, depth);
      }
    }
  }

  lemma LineEndsHere(raw: Bytes, i: nat, bodies: seq<Body>, after: Bytes, depth: int)
    requires At(raw, i, UpText(bodies, after)) && i + |UpText(bodies, after)| == |raw| && BodiesOk(bodies)
    requires RBRACE !in after && depth > |bodies| > 0 && LineOf(bodies[0]).Ends?
    ensures i <= |raw| && Close(raw, LineEnd(raw, i), LBRACE, RBRACE, depth) == None
  {
    hide *;
    UpUnfolds(bodies, after);
    LineText(bodies[0]);
    var line, up := LineOf(bodies[0]), UpText(bodies[1..], after);
    var text, rest := line.text, BodyText(line.rest);
    var ups := [line.rest] + bodies[1..];
    assert ups[0] == line.rest && ups[1..] == bodies[1..];
    assert text + [LF] + rest + ([RBRACE] + up) == text + ([LF] + (rest + ([RBRACE] + up)));
    RestOk(line.rest, bodies[1..]);
    UpUnfolds(ups, after);
    AtConcat(raw, i, text, [LF] + (rest + ([RBRACE] + up)));
    AtConcat(raw, i + |text|, [LF], rest + ([RBRACE] + up));
    AtIndex(raw, i + |text|, [LF], 0);
    LineRuns(raw, i, text);
    LineStops(raw, i + |text|);
    CloseAtBreak(raw, i + |text|, depth);
    UnclosedUp(raw, i + |text| + 1, ups, after, depth);
  }

  lemma RestOk(b: Body, bodies: seq<Body>)
    requires BodyOk(b, true) && BodiesOk(bodies)
    ensures BodiesOk([b] + bodies)
  {
    hide BodyOk;
  }

  // ---------------------------------------------------------------- the document after the cut

  // The text of a document with a cut in the object at the end of a path.
  function CutDocument(d: Doc, path: seq<Bytes>, k: Cut): Bytes
    requires Inner(d.body, path).Some?
  {
    GapsText(d.before)
    + ([LBRACE] + DownText(d.body, path) + (LeftText(k.left) + UpText([k.right] + Ups(d.body, path), d.after)))
  }

  lemma CutDocumentIs(d: Doc, path: seq<Bytes>, k: Cut)
    requires DocOk(d) && Inner(d.body, path).Some?
    ensures var from, c := BraceAt(d.body, RootAt(d), path) + 1, Inner(d.body, path).value;
            && from + |BodyText(c)| <= |DocText(d)|
            && DocText(d)[..from] + CutText(k) + DocText(d)[from + |BodyText(c)|..] == CutDocument(d, path, k)
  {
    hide *;
    var c, ups := Inner(d.body, path).value, Ups(d.body, path);
    var g, down := GapsText(d.before), DownText(d.body, path);
    DocIs(d);
    AroundText(d.body, path, d.after);
    BraceBehindDown(d.body, RootAt(d), path);
    UpUnfolds([c] + ups, d.after);
    UpUnfolds([k.right] + ups, d.after);
    assert ([c] + ups)[1..] == ups && ([k.right] + ups)[1..] == ups;
    CutTextIs(k);
    CutDocumentText(d, path, k);
    CutAssembles(g, down, BodyText(c), [RBRACE] + UpText(ups, d.after), LeftText(k.left), BodyText(k.right));
  }

  lemma CutTextIs(k: Cut)
    ensures CutText(k) == LeftText(k.left) + BodyText(k.right)
  {
  }

  lemma CutDocumentText(d: Doc, path: seq<Bytes>, k: Cut)
    requires Inner(d.body, path).Some?
    ensures CutDocument(d, path, k) ==
            GapsText(d.before)
            + ([LBRACE] + DownText(d.body, path) + (LeftText(k.left) + UpText([k.right] + Ups(d.body, path), d.after)))
  {
  }

  lemma CutAssembles(g: Bytes, down: Bytes, body: Bytes, up: Bytes, left: Bytes, right: Bytes)
    ensures var raw, from := g + ([LBRACE] + down + (body + up)), |g| + |down| + 1;
            && from + |body| <= |raw|
            && raw[..from] + (left + right) + raw[from + |body|..] == g + ([LBRACE] + down + (left + (right + up)))
  {
    var raw, from := g + ([LBRACE] + down + (body + up)), |g| + |down| + 1;
    assert raw == g + [LBRACE] + down + body + up;
    assert raw[..from] == g + [LBRACE] + down && raw[from + |body|..] == up;
  }

  // The cut opens a comment that takes in everything up to the closing brace, and that brace.
  predicate TakesBrace(k: Cut) {
    k.left.note.Some? && LineOf(k.right).RunsOn?
  }

  lemma CutRootUnclosed(d: Doc, path: seq<Bytes>, k: Cut)
    requires DocOk(d) && Inner(d.body, path).Some? && BodyOk(k.left.pieces, true) && BodyOk(k.right, true)
    requires TakesBrace(k) && LF !in k.left.note.value && Settles(Ups(d.body, path)) && RBRACE !in d.after
    ensures var raw, root := CutDocument(d, path, k), RootAt(d);
            && root < |raw| && raw[root] == LBRACE && SkipSpace(raw, 0) == root
            && Close(raw, root, LBRACE, RBRACE, 0) == None
  {
    hide *;
    var raw, root, ups := CutDocument(d, path, k), RootAt(d), Ups(d.body, path);
    CutDocumentText(d, path, k);
    DocIs(d);
    UpsOk(d.body, path);
    var g, down, up := GapsText(d.before), DownText(d.body, path), UpText([k.right] + ups, d.after);
    TakesBraceIs(k);
    var pieces, note := BodyText(k.left.pieces), k.left.note.value;
    var body := [LBRACE] + down + (LeftText(k.left) + up);
    WholeText(g, body);
    AtConcat(raw, 0, g, body);
    AtConcat(raw, root, [LBRACE] + down, LeftText(k.left) + up);
    AtConcat(raw, root, [LBRACE], down);
    AtIndex(raw, root, [LBRACE], 0);
    var i := root + 1 + |down|;
    AtConcat(raw, i, LeftText(k.left), up);
    AtConcat(raw, i, pieces, LINE_MARK + note);
    var j := i + |pieces|;
    AtConcat(raw, j, LINE_MARK, note);
    GapsBefore(d);
    GapsAt(raw, 0, d.before);
    OpenStops(raw, root);
    BracesMatch();
    CloseAtOpen(raw, root, 0);
    CloseDown(raw, root + 1, d.body, path, 1);
    CloseAfterBody(raw, i, k.left.pieces, true, LBRACE, RBRACE, 1 + |path|);
    CloseAfterMark(raw, j, 1 + |path|);
    NoBraceBreaks();
    LineRuns(raw, j, LINE_MARK);
    LineRuns(raw, j + |LINE_MARK|, note);
    RestOk(k.right, ups);
    UpUnfolds([k.right] + ups, d.after);
    assert ([k.right] + ups)[1..] == ups;
    LineText(k.right);
    var m := j + |LINE_MARK| + |note|;
    var right, rest := BodyText(k.right), UpText(ups, d.after);
    AtConcat(raw, m, right, [RBRACE] + rest);
    AtConcat(raw, m + |right|, [RBRACE], rest);
    LineRuns(raw, m, right);
    LineRuns(raw, m + |right|, [RBRACE]);
    UnclosedLine(raw, m + |right| + 1, ups, d.after, 1 + |path|);
  }

  lemma TakesBraceIs(k: Cut)
    requires TakesBrace(k)
    ensures k.left.note.Some? && LineOf(k.right).RunsOn?
    ensures LeftText(k.left) == BodyText(k.left.pieces) + (LINE_MARK + k.left.note.value)
  {
    hide LineOf, BodyText;
  }

  lemma WholeText(g: Bytes, body: Bytes)
    ensures At(g + body, 0, g + body)
  {
  }

  lemma GapsBefore(d: Doc)
    requires DocOk(d)
    ensures GapsOk(d.before) && BodyOk(d.body, true)
  {
    hide BodyOk;
  }

  lemma OpenStops(raw: Bytes, i: nat)
    requires i < |raw| && raw[i] == LBRACE
    ensures SkipSpace(raw, i) == i
  {
  }

  // A name is not even looked for: the path to it, or the object at its end, is refused as unterminated.
  predicate Lost(raw: Bytes, path: seq<Bytes>, name: Bytes) {
    match Resolve(raw, path)
    case Refused(e) => e == UnterminatedObject
    case Ok(place) => Find(raw, place.brace, name) == Refused(UnterminatedObject)
  }

  // Nothing is found in a text whose root object is not closed.
  lemma UnclosedIsLost(raw: Bytes, root: nat, path: seq<Bytes>, name: Bytes)
    requires root < |raw| && raw[root] == LBRACE && SkipSpace(raw, 0) == root
    requires Close(raw, root, LBRACE, RBRACE, 0) == None
    ensures Lost(raw, path, name)
  {
    hide SkipSpace, Close, FindFrom;
    assert Find(raw, root, name) == Refused(UnterminatedObject);
    if path != [] {
      assert Find(raw, root, path[0]) == Refused(UnterminatedObject);
    }
  }

  lemma LostIsNotFound(raw: Bytes, path: seq<Bytes>, name: Bytes)
    requires Lost(raw, path, name)
    ensures !Lacks(raw, path, name) && FindAt(raw, path, name) == None
  {
    hide Resolve, Find;
  }
}
