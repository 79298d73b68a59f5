// The body removeJSONMember leaves: the pieces in front of the cut and behind it, and the line a cut in
// a comment runs on to.

module JsoncRemovedBody {
  import opened ByteSeqs
  import opened JsonGrammar
  import opened JsoncEdit
  import opened JsoncRemoval
  import opened JsoncRoundTrip
  import opened JsoncTree
  import opened Options

  // ---------------------------------------------------------------- the line the cut runs on to

  // What a comment that lost the end of its line takes in of a body: whole pieces up to the next end of
  // a line between pieces; the whole body, if no line ends in it; or part of a piece.
  datatype Line = Ends(text: Bytes, rest: Body) | RunsOn | Breaks

  function LineOf(b: Body): Line {
    if b.End? then RunsOn
    else if b.piece == Space(Blank(LF)) then Ends([], b.rest)
    else if IsLineComment(b.piece) then Ends(LINE_MARK + b.piece.gap.text, b.rest)
    else if LF in PieceText(b.piece) then Breaks
    else match LineOf(b.rest)
      case Ends(text, rest) => Ends(PieceText(b.piece) + text, rest)
      case line => line
  }

  // Whether a member stands in front of the end of the line.
  predicate TakesMember(b: Body) {
    b.Next? && b.piece != Space(Blank(LF)) && !IsLineComment(b.piece) && (b.piece.Field? || TakesMember(b.rest))
  }

  // What follows the pieces in front of the cut, if these make a body again.
  function Tail(k: Cut): Option<Body> {
    match k.left.note
    case None => Some(k.right)
    case Some(head) =>
      match LineOf(k.right)
      case Ends(text, rest) => Some(Next(Space(LineComment(head + text)), rest))
      case _ => None
  }

  // The body without the member.
  function Removed(c: Body, name: Bytes): Option<Body>
    requires Lookup(c, name).Some?
  {
    match Tail(CutOf(c, name))
    case None => None
    case Some(tail) => Some(Join(CutOf(c, name).left.pieces, tail))
  }

  predicate AllBlank(b: Body) {
    b.Next? ==> b.piece.Space? && b.piece.gap.Blank? && AllBlank(b.rest)
  }

  // Nothing but blanks behind the last member, and that one is a scalar.
  predicate OpenEnd(b: Body) {
    b.Next? && ((b.piece.Field? && b.piece.value.Scalar? && AllBlank(b.rest)) || OpenEnd(b.rest))
  }

  // The comment, if the cut opens one, ends between pieces and takes in no member, and a scalar left open
  // in front of the cut ends behind it.
  predicate CutFits(c: Body, name: Bytes)
    requires Lookup(c, name).Some?
  {
    var k := CutOf(c, name);
    && Tail(k).Some?
    && (k.left.note.Some? ==> !TakesMember(k.right))
    && (OpenEnd(k.left.pieces) ==> ScalarEnds(Tail(k).value))
  }

  lemma {:induction false} LineText(b: Body)
    requires BodyOk(b, true)
    ensures match LineOf(b)
            case Ends(text, rest) =>
              BodyText(b) == text + [LF] + BodyText(rest) && LF !in text && BodyOk(rest, true)
            case RunsOn => LF !in BodyText(b)
            case Breaks => true
    decreases b
  {
    hide PieceText, PieceOk, IsLineComment;
    if b.Next? {
      BodyOkParts(b);
      if b.piece == Space(Blank(LF)) {
        BreakText();
      } else if IsLineComment(b.piece) {
        CommentText(b.piece);
      } else {
        LineText(b.rest);
        if LineOf(b.rest).Ends? {
          var p, t, r := PieceText(b.piece), LineOf(b.rest).text, BodyText(LineOf(b.rest).rest);
          assert p + (t + [LF] + r) == p + t + [LF] + r;
        }
      }
    }
  }

  lemma BodyOkParts(b: Body)
    requires b.Next? && BodyOk(b, true)
    ensures PieceOk(b.piece, true) && BodyOk(b.rest, true) && BodyText(b) == PieceText(b.piece) + BodyText(b.rest)
  {
    hide PieceOk, PieceText;
  }

  lemma BreakText()
    ensures PieceText(Space(Blank(LF))) == [LF]
  {
  }

  // The line splits the body; what it takes in holds a member or not.
  lemma {:induction false} LineSplits(b: Body) returns (taken: Body)
    requires LineOf(b).Ends?
    ensures b == Join(taken, LineOf(b).rest) && (NoFields(taken) <==> !TakesMember(b))
    decreases b
  {
    hide PieceText;
    if b.piece == Space(Blank(LF)) || IsLineComment(b.piece) {
      taken := Next(b.piece, End);
    } else {
      taken := LineSplits(b.rest);
      taken := Next(b.piece, taken);
    }
  }

  lemma RemovedText(k: Cut, tail: Body)
    requires BodyOk(k.left.pieces, true) && BodyOk(k.right, true) && Tail(k) == Some(tail)
    requires k.left.note.Some? ==> LF !in k.left.note.value
    ensures BodyText(Join(k.left.pieces, tail)) == CutText(k) && BodyOk(Join(k.left.pieces, tail), true)
  {
    JoinText(k.left.pieces, tail);
    JoinOk(k.left.pieces, tail);
    if k.left.note.Some? {
      LineText(k.right);
      var text, rest := LineOf(k.right).text, LineOf(k.right).rest;
      NoteText(BodyText(k.left.pieces), k.left.note.value, text, rest);
      assert BodyOk(tail, true);
    } else {
      hide BodyText;
      assert BodyText(k.left.pieces) + [] == BodyText(k.left.pieces);
    }
  }

  lemma NoteText(pieces: Bytes, head: Bytes, text: Bytes, rest: Body)
    ensures pieces + BodyText(Next(Space(LineComment(head + text)), rest)) ==
            pieces + (LINE_MARK + head) + (text + [LF] + BodyText(rest))
  {
    assert BodyText(Next(Space(LineComment(head + text)), rest)) == LINE_MARK + (head + text) + [LF] + BodyText(rest);
    hide LINE_MARK, BodyText;
  }

  lemma {:induction false} JoinOk(a: Body, b: Body)
    ensures BodyOk(Join(a, b), true) <==> BodyOk(a, true) && BodyOk(b, true)
    decreases a
  {
    hide PieceOk;
    if a.Next? {
      JoinOk(a.rest, b);
    }
  }

  // ---------------------------------------------------------------- members of joined bodies

  lemma {:induction false} JoinAssoc(a: Body, b: Body, c: Body)
    ensures Join(Join(a, b), c) == Join(a, Join(b, c))
    decreases a
  {
    if a.Next? {
      JoinAssoc(a.rest, b, c);
    }
  }

  lemma {:induction false} LookupJoin(a: Body, b: Body, name: Bytes)
    ensures Lookup(Join(a, b), name) == if Lookup(a, name).Some? then Lookup(a, name) else Lookup(b, name)
    decreases a
  {
    if a.Next? {
      LookupJoin(a.rest, b, name);
    }
  }

  lemma {:induction false} ScalarEndsJoin(a: Body, b: Body)
    ensures ScalarEnds(Join(a, b)) == if AllBlank(a) then ScalarEnds(b) else ScalarEnds(a)
    decreases a
  {
    if a.Next? {
      ScalarEndsJoin(a.rest, b);
    }
  }

  lemma {:induction false} ReadsBehind(a: Body, b: Body, name: Bytes)
    requires ReadsTo(Join(a, b), name) && Lookup(a, name).None?
    ensures ReadsTo(b, name)
    decreases a
  {
    if a.Next? {
      ReadsBehind(a.rest, b, name);
    }
  }

  // Another tail is read as far, if it ends the scalar left open in front of it.
  lemma {:induction false} SwapTail(a: Body, b: Body, c: Body, name: Bytes)
    requires ReadsTo(Join(a, b), name) && (OpenEnd(a) ==> ScalarEnds(c))
    requires Lookup(a, name).None? ==> ReadsTo(c, name)
    ensures ReadsTo(Join(a, c), name)
    decreases a
  {
    if a.Next? {
      ScalarEndsJoin(a.rest, b);
      ScalarEndsJoin(a.rest, c);
      if !IsField(a.piece, name) {
        SwapTail(a.rest, b, c, name);
      }
    }
  }

  lemma {:induction false} EveryJoin(a: Body, b: Body, c: Body)
    requires EveryScalarEnds(Join(a, b)) && EveryScalarEnds(c)
    ensures EveryScalarEnds(Join(a, c)) <==> (OpenEnd(a) ==> ScalarEnds(c))
    decreases a
  {
    if a.Next? {
      ScalarEndsJoin(a.rest, b);
      ScalarEndsJoin(a.rest, c);
      EveryJoin(a.rest, b, c);
    }
  }

  lemma {:induction false} EveryBehind(a: Body, b: Body)
    requires EveryScalarEnds(Join(a, b))
    ensures EveryScalarEnds(b)
    decreases a
  {
    if a.Next? {
      EveryBehind(a.rest, b);
    }
  }

  lemma {:induction false} DistinctBehind(a: Body, b: Body)
    requires DistinctKeys(Join(a, b))
    ensures DistinctKeys(b)
    decreases a
  {
    if a.Next? {
      DistinctBehind(a.rest, b);
    }
  }

  lemma {:induction false} DistinctJoin(a: Body, b: Body, c: Body)
    requires DistinctKeys(Join(a, b)) && DistinctKeys(c)
    requires forall name :: Lookup(c, name).Some? ==> Lookup(b, name).Some?
    ensures DistinctKeys(Join(a, c))
    decreases a
  {
    if a.Next? {
      DistinctJoin(a.rest, b, c);
      if a.piece.Field? {
        LookupJoin(a.rest, b, a.piece.key);
        LookupJoin(a.rest, c, a.piece.key);
      }
    }
  }

  predicate NoFields(b: Body) {
    b.Next? ==> !b.piece.Field? && NoFields(b.rest)
  }

  lemma {:induction false} NoFieldsKeeps(a: Body, b: Body, name: Bytes)
    requires NoFields(a)
    ensures Lookup(a, name) == None && Lookup(Join(a, b), name) == Lookup(b, name)
    ensures ReadsTo(Join(a, b), name) == ReadsTo(b, name)
    ensures EveryScalarEnds(Join(a, b)) == EveryScalarEnds(b) && DistinctKeys(Join(a, b)) == DistinctKeys(b)
    decreases a
  {
    if a.Next? {
      NoFieldsKeeps(a.rest, b, name);
    }
  }

  lemma {:induction false} NoFieldsJoin(a: Body, b: Body)
    ensures NoFields(Join(a, b)) <==> NoFields(a) && NoFields(b)
    decreases a
  {
    if a.Next? {
      NoFieldsJoin(a.rest, b);
    }
  }

  // ---------------------------------------------------------------- what the cut drops in front

  lemma {:induction false} TrimDrops(b: Body, drop: byte -> bool) returns (dropped: Body)
    ensures b == Join(TrimBlanks(b, drop), dropped) && NoFields(dropped)
    decreases b
  {
    if b.End? {
      dropped := End;
    } else {
      dropped := TrimDrops(b.rest, drop);
      var t := TrimBlanks(b.rest, drop);
      if t.End? && IsBlankOf(b.piece, drop) {
        dropped := Next(b.piece, dropped);
      }
    }
  }

  lemma LastDrops(b: Body, a: Body, dropped: Body) returns (more: Body)
    requires b == Join(a, dropped) && NoFields(dropped) && a.Next? && !LastPiece(a).Field?
    ensures b == Join(Init(a), more) && NoFields(more)
  {
    LastText(a);
    var last := Next(LastPiece(a), End);
    more := Join(last, dropped);
    JoinAssoc(Init(a), last, dropped);
    NoFieldsJoin(last, dropped);
  }

  lemma LineCutDrops(pre: Body) returns (dropped: Body)
    ensures pre == Join(LineCut(pre).pieces, dropped) && NoFields(dropped)
  {
    hide TrimBlanks, Init, LastPiece, Join, NoFields, DropReturn;
    var t := TrimBlanks(pre, IsIndent);
    dropped := TrimDrops(pre, IsIndent);
    if t.Next? && (IsLineComment(LastPiece(t)) || LastPiece(t) == Space(Blank(LF))) {
      dropped := LastDrops(pre, t, dropped);
      var u := Init(t);
      if !IsLineComment(LastPiece(t)) && u.Next? && LastPiece(u) == Space(Blank(CR)) {
        dropped := LastDrops(pre, u, dropped);
      }
    }
  }

  lemma CommaCutDrops(pre: Body) returns (dropped: Body)
    requires CommaCut(pre).Some?
    ensures pre == Join(CommaCut(pre).value.pieces, dropped) && NoFields(dropped)
  {
    hide TrimBlanks, Init, LastPiece, Join, NoFields, TrimBytes;
    dropped := TrimDrops(pre, IsSpace);
    dropped := LastDrops(pre, TrimBlanks(pre, IsSpace), dropped);
  }

  // The body is what stands in front of the cut, something without members, the member and the rest.
  lemma CutDrops(c: Body, name: Bytes) returns (dropped: Body)
    requires Lookup(c, name).Some?
    ensures NoFields(dropped)
    ensures c == Join(CutOf(c, name).left.pieces, Join(dropped, Next(FirstField(c, name), After(c, name))))
    ensures Lookup(CutOf(c, name).left.pieces, name) == None && FirstField(c, name).key == name
  {
    hide *;
    var pre, tail, left := Before(c, name), Next(FirstField(c, name), After(c, name)), CutOf(c, name).left;
    SplitAtMember(c, name);
    CutOfIs(c, name);
    if left == LineCut(pre) {
      dropped := LineCutDrops(pre);
    } else {
      dropped := CommaCutDrops(pre);
    }
    JoinAssoc(left.pieces, dropped, tail);
    LookupJoin(left.pieces, dropped, name);
  }

  // ---------------------------------------------------------------- the body without the member

  // What stands behind the cut, before a comment takes in its line, holds what follows the member.
  lemma RightKeeps(c: Body, name: Bytes, other: Bytes)
    requires Lookup(c, name).Some?
    ensures var right, rest := CutOf(c, name).right, After(c, name);
            && Lookup(right, other) == Lookup(rest, other) && ReadsTo(right, other) == ReadsTo(rest, other)
            && EveryScalarEnds(right) == EveryScalarEnds(rest) && DistinctKeys(right) == DistinctKeys(rest)
  {
    DropBlanksKeeps(After(c, name), other);
    DropBlanksKeepsAll(After(c, name));
    hide LineCut, CommaCut, After, Before, FirstField, DropBlanks;
  }

  lemma {:induction false} DropBlanksKeepsAll(b: Body)
    ensures EveryScalarEnds(DropBlanks(b)) == EveryScalarEnds(b) && DistinctKeys(DropBlanks(b)) == DistinctKeys(b)
    decreases b
  {
    if b.Next? && b.piece.Space? && b.piece.gap.Blank? {
      DropBlanksKeepsAll(b.rest);
    }
  }

  lemma {:induction false} DistinctAcross(a: Body, b: Body, name: Bytes)
    requires DistinctKeys(Join(a, b)) && Lookup(b, name).Some?
    ensures Lookup(a, name).None?
    decreases a
  {
    if a.Next? {
      DistinctAcross(a.rest, b, name);
      LookupJoin(a.rest, b, name);
    }
  }

  // A suffix of a body holds some of its members.
  lemma SuffixHolds(a: Body, b: Body, name: Bytes)
    ensures Lookup(b, name).Some? ==> Lookup(Join(a, b), name).Some?
    ensures DistinctKeys(Join(a, b)) && Lookup(b, name).Some? ==> Lookup(Join(a, b), name) == Lookup(b, name)
    ensures DistinctKeys(Join(a, b)) ==> DistinctKeys(b)
    ensures EveryScalarEnds(Join(a, b)) ==> EveryScalarEnds(b)
    ensures NoFields(a) ==> Lookup(b, name) == Lookup(Join(a, b), name) && ReadsTo(b, name) == ReadsTo(Join(a, b), name)
  {
    LookupJoin(a, b, name);
    if DistinctKeys(Join(a, b)) {
      DistinctBehind(a, b);
      if Lookup(b, name).Some? {
        DistinctAcross(a, b, name);
      }
    }
    if EveryScalarEnds(Join(a, b)) {
      EveryBehind(a, b);
    }
    if NoFields(a) {
      NoFieldsKeeps(a, b, name);
    }
  }

  lemma CommentFirst(g: Gap, b: Body, name: Bytes)
    ensures var c := Next(Space(g), b);
            && Lookup(c, name) == Lookup(b, name) && ReadsTo(c, name) == ReadsTo(b, name)
            && EveryScalarEnds(c) == EveryScalarEnds(b) && DistinctKeys(c) == DistinctKeys(b)
  {
  }

  lemma TailIs(k: Cut)
    ensures match k.left.note
            case None => Tail(k) == Some(k.right)
            case Some(head) =>
              if LineOf(k.right).Ends? then
                Tail(k) == Some(Next(Space(LineComment(head + LineOf(k.right).text)), LineOf(k.right).rest))
              else Tail(k) == None
  {
    hide LineOf;
  }

  // The tail holds some of the members that follow the one removed, and all of them if no comment takes
  // one in.
  lemma TailKeeps(c: Body, name: Bytes, other: Bytes)
    requires Lookup(c, name).Some? && Tail(CutOf(c, name)).Some?
    ensures var k, tail, rest := CutOf(c, name), Tail(CutOf(c, name)).value, After(c, name);
            && (Lookup(tail, other).Some? ==> Lookup(rest, other).Some?)
            && (DistinctKeys(rest) ==>
                  DistinctKeys(tail) && (Lookup(tail, other).Some? ==> Lookup(tail, other) == Lookup(rest, other)))
            && (EveryScalarEnds(rest) ==> EveryScalarEnds(tail))
            && ((k.left.note.Some? ==> !TakesMember(k.right)) ==>
                  Lookup(tail, other) == Lookup(rest, other) && (ReadsTo(rest, other) ==> ReadsTo(tail, other)))
  {
    hide *;
    var k := CutOf(c, name);
    RightKeeps(c, name, other);
    TailIs(k);
    if k.left.note.Some? {
      var taken := LineSplits(k.right);
      var line := LineOf(k.right);
      SuffixHolds(taken, line.rest, other);
      CommentFirst(LineComment(k.left.note.value + line.text), line.rest, other);
    }
  }

  lemma RemovedIs(c: Body, name: Bytes)
    requires Lookup(c, name).Some?
    ensures match Tail(CutOf(c, name))
            case None => Removed(c, name) == None && !CutFits(c, name)
            case Some(tail) =>
              var left := CutOf(c, name).left.pieces;
              && Removed(c, name) == Some(Join(left, tail))
              && (CutFits(c, name) <==>
                    && (CutOf(c, name).left.note.Some? ==> !TakesMember(CutOf(c, name).right))
                    && (OpenEnd(left) ==> ScalarEnds(tail)))
  {
    hide Tail, CutOf, Join, OpenEnd, ScalarEnds, TakesMember;
  }

  lemma FieldFirst(p: Piece, rest: Body, other: Bytes)
    requires p.Field?
    ensures var b := Next(p, rest);
            && Lookup(b, other) == (if other == p.key then Some(p.value) else Lookup(rest, other))
            && (other != p.key && ReadsTo(b, other) ==> ReadsTo(rest, other))
            && (EveryScalarEnds(b) ==> EveryScalarEnds(rest)) && (DistinctKeys(b) ==> DistinctKeys(rest))
            && (DistinctKeys(b) ==> Lookup(rest, p.key).None?)
  {
  }

  // If the cut fits, every other name is looked up as before, and can be read as before.
  lemma RemovedKeeps(c: Body, name: Bytes, other: Bytes)
    requires Lookup(c, name).Some? && CutFits(c, name) && other != name
    ensures Removed(c, name).Some? && Lookup(Removed(c, name).value, other) == Lookup(c, other)
    ensures ReadsTo(c, other) ==> ReadsTo(Removed(c, name).value, other)
  {
    hide *;
    RemovedIs(c, name);
    var dropped := CutDrops(c, name);
    var left, tail := CutOf(c, name).left.pieces, Tail(CutOf(c, name)).value;
    var p, rest := FirstField(c, name), After(c, name);
    var behind := Join(dropped, Next(p, rest));
    TailKeeps(c, name, other);
    FieldFirst(p, rest, other);
    NoFieldsKeeps(dropped, Next(p, rest), other);
    LookupJoin(left, behind, other);
    LookupJoin(left, tail, other);
    if ReadsTo(c, other) {
      if Lookup(left, other).None? {
        ReadsBehind(left, behind, other);
      }
      SwapTail(left, behind, tail, other);
    }
  }

  // With distinct keys the name is gone, and what is left is as it was; with every scalar ended before,
  // every scalar ends after if and only if the one left open in front of the cut ends behind it.
  lemma RemovedIsGone(c: Body, name: Bytes)
    requires Lookup(c, name).Some? && Removed(c, name).Some? && DistinctKeys(c)
    ensures Lookup(Removed(c, name).value, name) == None && DistinctKeys(Removed(c, name).value)
    ensures var k := CutOf(c, name);
            EveryScalarEnds(c) ==>
              (EveryScalarEnds(Removed(c, name).value) <==>
                (OpenEnd(k.left.pieces) ==> ScalarEnds(Tail(k).value)))
  {
    hide *;
    RemovedIs(c, name);
    var dropped := CutDrops(c, name);
    var left, tail := CutOf(c, name).left.pieces, Tail(CutOf(c, name)).value;
    var p, rest := FirstField(c, name), After(c, name);
    var behind := Join(dropped, Next(p, rest));
    forall other: Bytes ensures Lookup(tail, other).Some? ==> Lookup(behind, other).Some? {
      TailKeeps(c, name, other);
      FieldFirst(p, rest, other);
      NoFieldsKeeps(dropped, Next(p, rest), other);
    }
    TailKeeps(c, name, name);
    FieldFirst(p, rest, name);
    NoFieldsKeeps(dropped, Next(p, rest), name);
    LookupJoin(left, tail, name);
    DistinctBehind(left, behind);
    DistinctJoin(left, behind, tail);
    if EveryScalarEnds(c) {
      EveryBehind(left, behind);
      EveryJoin(left, behind, tail);
    }
  }

  // What is left over was there.
  lemma StillThere(c: Body, name: Bytes, other: Bytes)
    requires Lookup(c, name).Some? && Removed(c, name).Some? && DistinctKeys(c)
    requires Lookup(Removed(c, name).value, other).Some?
    ensures other != name && Lookup(c, other) == Lookup(Removed(c, name).value, other)
  {
    hide *;
    RemovedIs(c, name);
    var dropped := CutDrops(c, name);
    var left, tail := CutOf(c, name).left.pieces, Tail(CutOf(c, name)).value;
    var p, rest := FirstField(c, name), After(c, name);
    var behind := Join(dropped, Next(p, rest));
    TailKeeps(c, name, other);
    FieldFirst(p, rest, other);
    FieldFirst(p, rest, name);
    NoFieldsKeeps(dropped, Next(p, rest), other);
    LookupJoin(left, behind, other);
    LookupJoin(left, tail, other);
    DistinctBehind(left, behind);
  }

  lemma {:induction false} SomeKey(b: Body) returns (key: Bytes)
    requires !NoFields(b)
    ensures Lookup(b, key).Some?
    decreases b
  {
    if b.piece.Field? {
      key := b.piece.key;
    } else {
      key := SomeKey(b.rest);
    }
  }

  // A member that the comment takes in is lost.
  lemma LostMember(c: Body, name: Bytes) returns (other: Bytes)
    requires Lookup(c, name).Some? && Removed(c, name).Some? && DistinctKeys(c)
    requires CutOf(c, name).left.note.Some? && TakesMember(CutOf(c, name).right)
    ensures other != name && Lookup(c, other).Some? && Lookup(Removed(c, name).value, other) == None
  {
    hide *;
    RemovedIs(c, name);
    var dropped := CutDrops(c, name);
    var k := CutOf(c, name);
    var left, p, rest := k.left.pieces, FirstField(c, name), After(c, name);
    var behind := Join(dropped, Next(p, rest));
    TailIs(k);
    var line := LineOf(k.right);
    var taken := LineSplits(k.right);
    other := SomeKey(taken);
    RightKeeps(c, name, other);
    DistinctBehind(left, behind);
    NoFieldsKeeps(dropped, Next(p, rest), other);
    FieldFirst(p, rest, other);
    FieldFirst(p, rest, name);
    LookupJoin(taken, line.rest, other);
    if Lookup(line.rest, other).Some? {
      DistinctAcross(taken, line.rest, other);
    }
    CommentFirst(LineComment(k.left.note.value + line.text), line.rest, other);
    DistinctAcross(left, behind, other);
    LookupJoin(left, behind, other);
    LookupJoin(left, Tail(k).value, other);
  }
}
