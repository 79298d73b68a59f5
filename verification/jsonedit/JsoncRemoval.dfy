// removeJSONMember as an edit of the tree: what stands in front of the cut, what behind it, and when
// the two make a body again.

module JsoncRemoval {
  import opened ByteSeqs
  import opened JsonGrammar
  import opened JsoncEdit
  import opened JsoncReads
  import opened JsoncRoundTrip
  import opened JsoncScan
  import opened JsoncTree
  import opened Options

  // ---------------------------------------------------------------- bodies from both ends

  function Join(a: Body, b: Body): Body {
    match a
    case End => b
    case Next(piece, rest) => Next(piece, Join(rest, b))
  }

  function Init(b: Body): Body
    requires b.Next?
  {
    if b.rest.End? then End else Next(b.piece, Init(b.rest))
  }

  function LastPiece(b: Body): Piece
    requires b.Next?
  {
    if b.rest.End? then b.piece else LastPiece(b.rest)
  }

  // What stands in front of the first member with a name.
  function Before(b: Body, name: Bytes): Body
    requires Lookup(b, name).Some?
  {
    if IsField(b.piece, name) then End else Next(b.piece, Before(b.rest, name))
  }

  function FirstField(b: Body, name: Bytes): (p: Piece)
    requires Lookup(b, name).Some?
    ensures p.Field?
  {
    if IsField(b.piece, name) then b.piece else FirstField(b.rest, name)
  }

  predicate IsBlankOf(p: Piece, drop: byte -> bool) {
    p.Space? && p.gap.Blank? && drop(p.gap.b)
  }

  // Without the blanks of a kind at the end.
  function TrimBlanks(b: Body, drop: byte -> bool): Body {
    match b
    case End => End
    case Next(piece, rest) =>
      var t := TrimBlanks(rest, drop);
      if t.End? && IsBlankOf(piece, drop) then End else Next(piece, t)
  }

  function TrimBytes(s: Bytes): Bytes {
    if s != [] && IsSpace(s[|s| - 1]) then TrimBytes(s[..|s| - 1]) else s
  }

  // ---------------------------------------------------------------- the cut

  // What is left in front of a cut: whole pieces, and the head of a line comment if the cut took
  // the end of its line.
  datatype Left = Left(pieces: Body, note: Option<Bytes>)

  datatype Cut = Cut(left: Left, right: Body)

  predicate IsLineComment(p: Piece) {
    p.Space? && p.gap.LineComment?
  }

  function DropReturn(s: Bytes): Bytes {
    if s != [] && s[|s| - 1] == CR then s[..|s| - 1] else s
  }

  // In front of the indentation and the line break.
  function LineCut(pre: Body): Left {
    var t := TrimBlanks(pre, IsIndent);
    if t.End? then Left(t, None)
    else if IsLineComment(LastPiece(t)) then Left(Init(t), Some(DropReturn(LastPiece(t).gap.text)))
    else if LastPiece(t) != Space(Blank(LF)) then Left(t, None)
    else
      var u := Init(t);
      Left(if u.Next? && LastPiece(u) == Space(Blank(CR)) then Init(u) else u, None)
  }

  // In front of the comma with only blanks behind it; the end of a line counts as one, even if it
  // ends a comment.
  function CommaCut(pre: Body): Option<Left> {
    var t := TrimBlanks(pre, IsSpace);
    if t.End? then None
    else if LastPiece(t).Separator? then Some(Left(Init(t), None))
    else if IsLineComment(LastPiece(t)) then
      var s := TrimBytes(LastPiece(t).gap.text);
      if s != [] && s[|s| - 1] == COMMA then Some(Left(Init(t), Some(s[..|s| - 1]))) else None
    else None
  }

  function CutOf(c: Body, name: Bytes): Cut
    requires Lookup(c, name).Some?
  {
    var pre, rest := Before(c, name), After(c, name);
    var r := DropBlanks(rest);
    if r.Next? && r.piece.Separator? then Cut(LineCut(pre), r.rest)
    else
      Cut(match CommaCut(pre) case Some(left) => left case None => LineCut(pre),
          if FirstField(c, name).value.Scalar? then r else rest)
  }

  function LeftText(l: Left): Bytes {
    BodyText(l.pieces) + match l.note case None => [] case Some(text) => LINE_MARK + text
  }

  function CutText(k: Cut): Bytes {
    LeftText(k.left) + BodyText(k.right)
  }

  // ---------------------------------------------------------------- text from both ends

  lemma {:induction false} JoinText(a: Body, b: Body)
    ensures BodyText(Join(a, b)) == BodyText(a) + BodyText(b)
    decreases a
  {
    hide PieceText;
    if a.Next? {
      JoinText(a.rest, b);
      var p, x, y := PieceText(a.piece), BodyText(a.rest), BodyText(b);
      assert p + (x + y) == p + x + y;
    }
  }

  lemma {:induction false} LastText(b: Body)
    requires b.Next?
    ensures BodyText(b) == BodyText(Init(b)) + PieceText(LastPiece(b))
    ensures BodyOk(b, true) ==> BodyOk(Init(b), true) && PieceOk(LastPiece(b), true)
    ensures b == Join(Init(b), Next(LastPiece(b), End))
    decreases b
  {
    hide PieceText, PieceOk;
    if b.rest.End? {
      assert BodyText(b.rest) == [];
    } else {
      LastText(b.rest);
      var i, l := BodyText(Init(b.rest)), PieceText(LastPiece(b));
      assert PieceText(b.piece) + (i + l) == PieceText(b.piece) + i + l;
    }
  }

  lemma {:induction false} SplitAtMember(c: Body, name: Bytes)
    requires Lookup(c, name).Some?
    ensures c == Join(Before(c, name), Next(FirstField(c, name), After(c, name)))
    ensures FirstField(c, name).key == name && Lookup(c, name) == Some(FirstField(c, name).value)
    ensures Lookup(Before(c, name), name) == None
    ensures BodyOk(c, true) ==>
              BodyOk(Before(c, name), true) && PieceOk(FirstField(c, name), true) && BodyOk(After(c, name), true)
    decreases c
  {
    hide PieceOk;
    if !IsField(c.piece, name) {
      SplitAtMember(c.rest, name);
    }
  }

  // Where the member's span stands.
  lemma {:induction false} MemberSpan(c: Body, i: nat, name: Bytes)
    requires Lookup(c, name).Some?
    ensures Locate(c, i, name).Some?
    ensures var p, start := FirstField(c, name), i + |BodyText(Before(c, name))|;
            && Locate(c, i, name).value.keyStart == start
            && Locate(c, i, name).value.valueEnd ==
               start + |PieceText(p)| + if p.value.Scalar? then BlankRun(After(c, name)) else 0
    decreases c
  {
    hide HeadText, ValueText, GapText;
    if !IsField(c.piece, name) {
      MemberSpan(c.rest, i + |PieceText(c.piece)|, name);
    } else {
      assert BodyText(End) == [];
    }
  }

  ghost predicate AllOf(s: Bytes, drop: byte -> bool) {
    forall b <- s :: drop(b)
  }

  lemma {:induction false} TrimFacts(b: Body, drop: byte -> bool) returns (s: Bytes)
    ensures BodyText(b) == BodyText(TrimBlanks(b, drop)) + s && AllOf(s, drop)
    ensures BodyOk(b, true) ==> BodyOk(TrimBlanks(b, drop), true)
    ensures var t := TrimBlanks(b, drop); t.Next? ==> !IsBlankOf(LastPiece(t), drop)
    decreases b
  {
    if b.End? {
      s := [];
    } else {
      s := TrimFacts(b.rest, drop);
      var t := TrimBlanks(b.rest, drop);
      if t.End? && IsBlankOf(b.piece, drop) {
        s := [b.piece.gap.b] + s;
        assert BodyText(b) == [b.piece.gap.b] + BodyText(b.rest);
      } else {
        hide PieceText;
        assert PieceText(b.piece) + (BodyText(t) + s) == PieceText(b.piece) + BodyText(t) + s;
      }
    }
  }

  // The last byte of a piece.
  lemma LastByte(p: Piece)
    requires PieceOk(p, true)
    ensures PieceText(p) != []
    ensures var b := PieceText(p)[|PieceText(p)| - 1];
            match p
            case Space(Blank(x)) => b == x && PieceText(p) == [x]
            case Space(LineComment(text)) => b == LF && PieceText(p) == LINE_MARK + text + [LF]
            case Separator => b == COMMA && PieceText(p) == [COMMA]
            case _ => !IsSpace(b) && b != COMMA
  {
    if p.Field? && p.value.Scalar? {
      var t := p.value.text;
      assert IsPlain(t[|t| - 1]);
    }
  }

  // ---------------------------------------------------------------- where the cut begins

  lemma {:induction false} IndentStartsAt(raw: Bytes, a: nat, end: nat)
    requires a <= end <= |raw| && (forall k :: a <= k < end ==> IsIndent(raw[k]))
    requires a > 0 && !IsIndent(raw[a - 1])
    ensures IndentStart(raw, end) == a
    decreases end
  {
    if a < end {
      IndentStartsAt(raw, a, end - 1);
    }
  }

  lemma {:induction false} PreviousSkips(raw: Bytes, a: nat, end: nat, want: byte)
    requires a <= end <= |raw| && !IsSpace(want) && (forall k :: a <= k < end ==> IsSpace(raw[k]))
    ensures PreviousByte(raw, end, want) == PreviousByte(raw, a, want)
    decreases end
  {
    if a < end {
      PreviousSkips(raw, a, end - 1, want);
    }
  }

  lemma {:induction false} NextSkips(raw: Bytes, i: nat, b: Body, want: byte)
    requires At(raw, i, BodyText(b)) && BodyOk(b, true) && !IsSpace(want)
    ensures NextByte(raw, i, want) == NextByte(raw, i + BlankRun(b), want)
    ensures At(raw, i + BlankRun(b), BodyText(DropBlanks(b))) && BodyOk(DropBlanks(b), true)
    ensures |BodyText(b)| == BlankRun(b) + |BodyText(DropBlanks(b))|
    decreases b
  {
    hide At, PieceOk;
    if b.Next? && b.piece.Space? && b.piece.gap.Blank? {
      BodyParts(raw, i, b);
      AtIndex(raw, i, PieceText(b.piece), 0);
      BlankOk(b.piece);
      NextSkips(raw, i + 1, b.rest, want);
    }
  }

  // A comma is next if and only if the next piece that is no blank is a separator.
  lemma NextComma(raw: Bytes, i: nat, b: Body)
    requires At(raw, i, BodyText(b)) && BodyOk(b, true) && b == DropBlanks(b)
    requires i + |BodyText(b)| < |raw| && raw[i + |BodyText(b)|] == RBRACE
    ensures NextByte(raw, i, COMMA) == if b.Next? && b.piece.Separator? then Some(i) else None
  {
    hide *;
    CommaIsNoSpace();
    if b.End? {
      NoText(b);
      NextIs(raw, i);
    } else {
      BodyParts(raw, i, b);
      PieceIsThere(b.piece);
      AtIndex(raw, i, PieceText(b.piece), 0);
      FirstByte(b);
      NextIs(raw, i);
    }
  }

  lemma NoText(b: Body)
    requires b.End?
    ensures |BodyText(b)| == 0
  {
  }

  lemma FirstByte(b: Body)
    requires b.Next? && b == DropBlanks(b) && PieceOk(b.piece, true) && PieceText(b.piece) != []
    ensures var x := PieceText(b.piece)[0]; !IsSpace(x) && (x == COMMA <==> b.piece.Separator?)
  {
    DropBlanksStops(b);
  }

  lemma {:induction false} DropBlanksStops(b: Body)
    ensures var r := DropBlanks(b); DropBlanks(r) == r && !(r.Next? && r.piece.Space? && r.piece.gap.Blank?)
    decreases b
  {
    if b.Next? && b.piece.Space? && b.piece.gap.Blank? {
      DropBlanksStops(b.rest);
    }
  }

  lemma NextIs(raw: Bytes, i: nat)
    requires i < |raw| && !IsSpace(raw[i])
    ensures NextByte(raw, i, COMMA) == if raw[i] == COMMA then Some(i) else None
  {
  }

  // What stands in front of position `at`, the end of some pieces behind the opening brace.
  lemma ByteBehind(raw: Bytes, i: nat, t: Body)
    requires At(raw, i, BodyText(t)) && BodyOk(t, true) && i > 0 && raw[i - 1] == LBRACE
    ensures var at := i + |BodyText(t)|;
            && at > 0 && at <= |raw|
            && if t.End? then raw[at - 1] == LBRACE
               else
                 && At(raw, i, BodyText(Init(t))) && BodyOk(Init(t), true)
                 && PieceOk(LastPiece(t), true) && PieceText(LastPiece(t)) != []
                 && At(raw, i + |BodyText(Init(t))|, PieceText(LastPiece(t)))
                 && at == i + |BodyText(Init(t))| + |PieceText(LastPiece(t))|
                 && raw[at - 1] == PieceText(LastPiece(t))[|PieceText(LastPiece(t))| - 1]
  {
    hide *;
    AtFits(raw, i, BodyText(t));
    if t.End? {
      NoText(t);
    } else {
      LastText(t);
      AtConcat(raw, i, BodyText(Init(t)), PieceText(LastPiece(t)));
      LastByte(LastPiece(t));
      AtIndex(raw, i + |BodyText(Init(t))|, PieceText(LastPiece(t)), |PieceText(LastPiece(t))| - 1);
    }
  }

  lemma TrimLineIs(raw: Bytes, i: nat)
    requires i <= |raw|
    ensures var at := IndentStart(raw, i);
            TrimLineStart(raw, i) ==
            if at > 0 && raw[at - 1] == LF then (if at > 1 && raw[at - 2] == CR then at - 2 else at - 1) else at
  {
  }

  lemma AllIndent(raw: Bytes, a: nat, s: Bytes, drop: byte -> bool)
    requires At(raw, a, s) && AllOf(s, drop)
    ensures a + |s| <= |raw| && forall k :: a <= k < a + |s| ==> drop(raw[k])
  {
    forall k | a <= k < a + |s| ensures drop(raw[k]) {
      assert raw[k] == raw[a..a + |s|][k - a];
    }
  }

  // What the cut leaves in front of it stands at the start of the body, and the scan stops there.
  ghost predicate LeftAt(raw: Bytes, i: nat, l: Left, at: nat) {
    && BodyOk(l.pieces, true) && At(raw, i, LeftText(l)) && at == i + |LeftText(l)|
    && (l.note.Some? ==> LF !in l.note.value)
  }

  lemma WholeLeft(raw: Bytes, i: nat, t: Body)
    requires At(raw, i, BodyText(t)) && BodyOk(t, true)
    ensures LeftAt(raw, i, Left(t, None), i + |BodyText(t)|)
  {
    assert BodyText(t) + [] == BodyText(t);
    hide BodyText, BodyOk;
  }

  // The head of a line comment stands where the comment does.
  lemma NoteLeft(raw: Bytes, i: nat, t: Body, text: Bytes, n: nat)
    requires At(raw, i, BodyText(t)) && BodyOk(t, true) && n <= |text| && LF !in text
    requires At(raw, i + |BodyText(t)|, LINE_MARK + text + [LF])
    ensures LeftAt(raw, i, Left(t, Some(text[..n])), i + |BodyText(t)| + |LINE_MARK| + n)
  {
    hide BodyText, BodyOk, At, LINE_MARK;
    var j := i + |BodyText(t)|;
    assert LINE_MARK + text + [LF] == LINE_MARK + text[..n] + (text[n..] + [LF]);
    AtConcat(raw, j, LINE_MARK + text[..n], text[n..] + [LF]);
    AtConcat(raw, i, BodyText(t), LINE_MARK + text[..n]);
  }

  lemma LineCutAt(raw: Bytes, i: nat, pre: Body)
    requires At(raw, i, BodyText(pre)) && BodyOk(pre, true) && i > 0 && raw[i - 1] == LBRACE
    ensures i + |BodyText(pre)| <= |raw|
    ensures LeftAt(raw, i, LineCut(pre), TrimLineStart(raw, i + |BodyText(pre)|))
  {
    hide *;
    var t := TrimBlanks(pre, IsIndent);
    var s := TrimFacts(pre, IsIndent);
    AtConcat(raw, i, BodyText(t), s);
    var at := i + |BodyText(t)|;
    AllIndent(raw, at, s, IsIndent);
    ByteBehind(raw, i, t);
    if t.Next? {
      LastByte(LastPiece(t));
      NotIndent(LastPiece(t), raw[at - 1]);
    } else {
      BraceIsNoIndent();
    }
    IndentStartsAt(raw, at, at + |s|);
    TrimLineIs(raw, at + |s|);
    LineCutIs(pre);
    if t.End? || raw[at - 1] != LF {
      WholeLeft(raw, i, t);
    } else if IsLineComment(LastPiece(t)) {
      CutInComment(raw, i, t);
    } else {
      CutAtBreak(raw, i, t);
    }
  }

  lemma BraceIsNoIndent()
    ensures !IsIndent(LBRACE) && LBRACE != LF && LBRACE != CR && !IsSpace(LBRACE) && LBRACE != COMMA
  {
  }

  lemma NotIndent(p: Piece, last: byte)
    requires PieceOk(p, true) && !IsBlankOf(p, IsIndent)
    requires PieceText(p) != [] && last == PieceText(p)[|PieceText(p)| - 1]
    ensures !IsIndent(last)
    ensures last == LF <==> IsLineComment(p) || p == Space(Blank(LF))
  {
    LastByte(p);
  }

  lemma LineCutIs(pre: Body)
    ensures var t := TrimBlanks(pre, IsIndent);
            LineCut(pre) ==
            if t.End? then Left(t, None)
            else if IsLineComment(LastPiece(t)) then Left(Init(t), Some(DropReturn(LastPiece(t).gap.text)))
            else if LastPiece(t) != Space(Blank(LF)) then Left(t, None)
            else Left(if Init(t).Next? && LastPiece(Init(t)) == Space(Blank(CR)) then Init(Init(t)) else Init(t), None)
  {
    hide TrimBlanks, LastPiece, Init;
  }

  // The bytes of a line comment at the end of some pieces.
  lemma CommentParts(raw: Bytes, i: nat, t: Body)
    requires At(raw, i, BodyText(t)) && BodyOk(t, true) && t.Next? && IsLineComment(LastPiece(t))
    ensures LastPiece(t).Space? && LastPiece(t).gap.LineComment?
    ensures var text, j := LastPiece(t).gap.text, i + |BodyText(Init(t))|;
            && |LINE_MARK| == 2 && At(raw, i, BodyText(Init(t))) && BodyOk(Init(t), true) && LF !in text
            && At(raw, j, LINE_MARK + text + [LF]) && i + |BodyText(t)| == j + |text| + 3 <= |raw|
            && raw[j + 1] == SLASH && raw[j + 2 + |text|] == LF
            && forall k :: 0 <= k < |text| ==> raw[j + 2 + k] == text[k]
  {
    hide *;
    var p := LastPiece(t);
    LastText(t);
    CommentText(p);
    var text, j := p.gap.text, i + |BodyText(Init(t))|;
    AtConcat(raw, i, BodyText(Init(t)), PieceText(p));
    AtFits(raw, i, BodyText(t));
    CommentBytes(raw, j, text);
  }

  lemma CommentText(p: Piece)
    requires IsLineComment(p) && PieceOk(p, true)
    ensures PieceText(p) == LINE_MARK + p.gap.text + [LF] && LF !in p.gap.text
    ensures p.Space? && p.gap.LineComment? && |LINE_MARK| == 2
  {
  }

  lemma CommentBytes(raw: Bytes, j: nat, text: Bytes)
    requires At(raw, j, LINE_MARK + text + [LF])
    ensures j + |text| + 3 <= |raw| && raw[j + 1] == SLASH && raw[j + 2 + |text|] == LF
    ensures forall k :: 0 <= k < |text| ==> raw[j + 2 + k] == text[k]
  {
    var s := LINE_MARK + text + [LF];
    AtFits(raw, j, s);
    AtIndex(raw, j, s, 1);
    AtIndex(raw, j, s, 2 + |text|);
    forall k | 0 <= k < |text| ensures raw[j + 2 + k] == text[k] {
      AtIndex(raw, j, s, 2 + k);
    }
  }

  // The line break belongs to a comment, which the cut opens.
  lemma CutInComment(raw: Bytes, i: nat, t: Body)
    requires At(raw, i, BodyText(t)) && BodyOk(t, true) && i > 0 && raw[i - 1] == LBRACE
    requires t.Next? && IsLineComment(LastPiece(t))
    ensures var text, at := LastPiece(t).gap.text, i + |BodyText(t)|;
            && 1 < at <= |raw| && raw[at - 1] == LF
            && LeftAt(raw, i, Left(Init(t), Some(DropReturn(text))), if raw[at - 2] == CR then at - 2 else at - 1)
  {
    hide *;
    CommentParts(raw, i, t);
    CommaIsNoSpace();
    var text := LastPiece(t).gap.text;
    DropReturnIs(text);
    NoteLeft(raw, i, Init(t), text, |DropReturn(text)|);
  }

  lemma DropReturnIs(s: Bytes)
    ensures |DropReturn(s)| == (if s != [] && s[|s| - 1] == CR then |s| - 1 else |s|)
    ensures s[..|DropReturn(s)|] == DropReturn(s)
  {
  }

  // The line break is a blank of its own.
  lemma CutAtBreak(raw: Bytes, i: nat, t: Body)
    requires At(raw, i, BodyText(t)) && BodyOk(t, true) && i > 0 && raw[i - 1] == LBRACE
    requires t.Next? && LastPiece(t) == Space(Blank(LF))
    ensures var u, at := Init(t), i + |BodyText(t)|;
            && 1 < at <= |raw| && raw[at - 1] == LF
            && LeftAt(raw, i, Left(if u.Next? && LastPiece(u) == Space(Blank(CR)) then Init(u) else u, None),
                      if raw[at - 2] == CR then at - 2 else at - 1)
  {
    hide *;
    var u := Init(t);
    ByteBehind(raw, i, t);
    LastByte(LastPiece(t));
    ByteBehind(raw, i, u);
    BraceIsNoIndent();
    if u.Next? {
      LastByte(LastPiece(u));
      ReturnIsBlank(LastPiece(u));
      if LastPiece(u) == Space(Blank(CR)) {
        WholeLeft(raw, i, Init(u));
      }
    }
    WholeLeft(raw, i, u);
  }

  lemma ReturnIsBlank(p: Piece)
    requires PieceOk(p, true) && PieceText(p) != []
    ensures PieceText(p)[|PieceText(p)| - 1] == CR <==> p == Space(Blank(CR))
  {
    LastByte(p);
  }

  lemma CommaCutIs(pre: Body)
    ensures var t := TrimBlanks(pre, IsSpace);
            CommaCut(pre) ==
            if t.End? then None
            else if IsLineComment(LastPiece(t)) then
              var s := TrimBytes(LastPiece(t).gap.text);
              if s != [] && s[|s| - 1] == COMMA then Some(Left(Init(t), Some(s[..|s| - 1]))) else None
            else if LastPiece(t).Separator? then Some(Left(Init(t), None))
            else None
  {
    hide TrimBlanks, LastPiece, Init, TrimBytes;
  }

  lemma PreviousIs(raw: Bytes, at: nat)
    requires 0 < at <= |raw| && !IsSpace(raw[at - 1])
    ensures PreviousByte(raw, at, COMMA) == if raw[at - 1] == COMMA then Some(at - 1) else None
  {
  }

  // Where the search back for a comma ends.
  ghost predicate CommaFoundAt(raw: Bytes, i: nat, cut: Option<Left>, found: Option<nat>) {
    match cut
    case None => found == None
    case Some(left) => found.Some? && LeftAt(raw, i, left, found.value)
  }

  lemma CommaCutAt(raw: Bytes, i: nat, pre: Body)
    requires At(raw, i, BodyText(pre)) && BodyOk(pre, true) && i > 0 && raw[i - 1] == LBRACE
    ensures i + |BodyText(pre)| <= |raw|
    ensures CommaFoundAt(raw, i, CommaCut(pre), PreviousByte(raw, i + |BodyText(pre)|, COMMA))
  {
    hide *;
    var t := TrimBlanks(pre, IsSpace);
    var s := TrimFacts(pre, IsSpace);
    AtConcat(raw, i, BodyText(t), s);
    var at := i + |BodyText(t)|;
    AllIndent(raw, at, s, IsSpace);
    CommaIsNoSpace();
    PreviousSkips(raw, at, at + |s|, COMMA);
    ByteBehind(raw, i, t);
    BraceIsNoIndent();
    CommaCutIs(pre);
    if t.End? {
      PreviousIs(raw, at);
      CommaFoundIs(raw, i, CommaCut(pre), None);
    } else if IsLineComment(LastPiece(t)) {
      CommaInComment(raw, i, t);
    } else {
      CommaOutside(raw, i, t);
    }
  }

  lemma CommaIsNoSpace()
    ensures !IsSpace(COMMA) && !IsSpace(SLASH) && !IsSpace(RBRACE) && IsSpace(LF)
    ensures SLASH != COMMA && RBRACE != COMMA && SLASH != CR
  {
  }

  lemma CommaFoundIs(raw: Bytes, i: nat, cut: Option<Left>, found: Option<nat>)
    ensures CommaFoundAt(raw, i, cut, found) <==>
              match cut
              case None => found == None
              case Some(left) => found.Some? && LeftAt(raw, i, left, found.value)
  {
    hide LeftAt;
  }

  lemma CommaOutside(raw: Bytes, i: nat, t: Body)
    requires At(raw, i, BodyText(t)) && BodyOk(t, true) && i > 0 && raw[i - 1] == LBRACE
    requires t.Next? && !IsLineComment(LastPiece(t)) && !IsBlankOf(LastPiece(t), IsSpace)
    ensures i + |BodyText(t)| <= |raw|
    ensures CommaFoundAt(raw, i, if LastPiece(t).Separator? then Some(Left(Init(t), None)) else None,
                         PreviousByte(raw, i + |BodyText(t)|, COMMA))
  {
    hide *;
    ByteBehind(raw, i, t);
    CommaIsNoSpace();
    CommaIsSeparator(LastPiece(t));
    PreviousIs(raw, i + |BodyText(t)|);
    if LastPiece(t).Separator? {
      WholeLeft(raw, i, Init(t));
      CommaFoundIs(raw, i, Some(Left(Init(t), None)), Some(i + |BodyText(Init(t))|));
    } else {
      CommaFoundIs(raw, i, None, None);
    }
  }

  lemma CommaIsSeparator(p: Piece)
    requires PieceOk(p, true) && PieceText(p) != [] && !IsLineComment(p) && !IsBlankOf(p, IsSpace)
    ensures var b := PieceText(p)[|PieceText(p)| - 1]; !IsSpace(b) && (b == COMMA <==> p.Separator?)
    ensures p.Separator? ==> |PieceText(p)| == 1
  {
    LastByte(p);
  }

  lemma {:induction false} TrimBytesFacts(s: Bytes)
    ensures var t := TrimBytes(s);
            && |t| <= |s| && t == s[..|t|] && (forall k :: |t| <= k < |s| ==> IsSpace(s[k]))
            && (t != [] ==> !IsSpace(t[|t| - 1]))
    decreases |s|
  {
    if s != [] && IsSpace(s[|s| - 1]) {
      TrimBytesFacts(s[..|s| - 1]);
    }
  }

  // The search crosses the line break of a comment and goes on inside the comment.
  lemma CommaInComment(raw: Bytes, i: nat, t: Body)
    requires At(raw, i, BodyText(t)) && BodyOk(t, true) && i > 0 && raw[i - 1] == LBRACE
    requires t.Next? && IsLineComment(LastPiece(t))
    ensures i + |BodyText(t)| <= |raw|
    ensures var s := TrimBytes(LastPiece(t).gap.text);
            CommaFoundAt(raw, i,
                         if s != [] && s[|s| - 1] == COMMA then Some(Left(Init(t), Some(s[..|s| - 1]))) else None,
                         PreviousByte(raw, i + |BodyText(t)|, COMMA))
  {
    hide *;
    CommentParts(raw, i, t);
    CommaIsNoSpace();
    var text, j := LastPiece(t).gap.text, i + |BodyText(Init(t))|;
    var s := TrimBytes(text);
    TrimBytesFacts(text);
    var stop := j + 2 + |s|;
    forall k | stop <= k < i + |BodyText(t)| ensures IsSpace(raw[k]) {
      assert k < j + 2 + |text| ==> raw[k] == raw[j + 2 + (k - j - 2)] == text[k - j - 2];
    }
    PreviousSkips(raw, stop, i + |BodyText(t)|, COMMA);
    assert s != [] ==> raw[stop - 1] == raw[j + 2 + (|s| - 1)] == text[|s| - 1] == s[|s| - 1];
    PreviousIs(raw, stop);
    CommaFoundIs(raw, i, None, None);
    if s != [] && s[|s| - 1] == COMMA {
      assert text[..|s| - 1] == s[..|s| - 1];
      NoteLeft(raw, i, Init(t), text, |s| - 1);
      CommaFoundIs(raw, i, Some(Left(Init(t), Some(s[..|s| - 1]))), Some(stop - 1));
    }
  }

  // ---------------------------------------------------------------- the cut in the text

  // What removeJSONMember leaves of a body: the text in front of the cut and the text behind it.
  lemma CutLeaves(raw: Bytes, i: nat, c: Body, name: Bytes)
    requires At(raw, i, BodyText(c)) && BodyOk(c, true) && Lookup(c, name).Some? && i > 0 && raw[i - 1] == LBRACE
    requires i + |BodyText(c)| < |raw| && raw[i + |BodyText(c)|] == RBRACE
    ensures Locate(c, i, name).Some?
    ensures var span := Locate(c, i, name).value; span.keyStart <= span.valueEnd <= |raw|
    ensures CutSpan(raw, Locate(c, i, name).value) ==
            raw[..i] + CutText(CutOf(c, name)) + raw[i + |BodyText(c)|..]
    ensures BodyOk(CutOf(c, name).left.pieces, true) && BodyOk(CutOf(c, name).right, true)
    ensures CutOf(c, name).left.note.Some? ==> LF !in CutOf(c, name).left.note.value
  {
    hide *;
    var pre, p, rest := Before(c, name), FirstField(c, name), After(c, name);
    var end, key := i + |BodyText(c)|, i + |BodyText(pre)|;
    CommaIsNoSpace();
    SplitAtMember(c, name);
    MemberSpan(c, i, name);
    MemberText(raw, i, pre, p, rest);
    NextSkips(raw, key + |PieceText(p)|, rest, COMMA);
    DropBlanksStops(rest);
    NextComma(raw, key + |PieceText(p)| + BlankRun(rest), DropBlanks(rest));
    LineCutAt(raw, i, pre);
    CommaCutAt(raw, i, pre);
    CommaFoundIs(raw, i, CommaCut(pre), PreviousByte(raw, key, COMMA));
    CutOfIs(c, name);
    CutSpanIs(raw, Locate(c, i, name).value);
    var cut, span := CutOf(c, name), Locate(c, i, name).value;
    if DropBlanks(rest).Next? && DropBlanks(rest).piece.Separator? {
      BodyParts(raw, key + |PieceText(p)| + BlankRun(rest), DropBlanks(rest));
      SeparatorText(DropBlanks(rest).piece);
      LeftAndRight(raw, i, cut, TrimLineStart(raw, key), end - |BodyText(cut.right)|, end);
    } else {
      var from := if CommaCut(pre).Some? then PreviousByte(raw, key, COMMA).value else TrimLineStart(raw, key);
      LeftAndRight(raw, i, cut, from, span.valueEnd, end);
    }
  }

  lemma MemberText(raw: Bytes, i: nat, pre: Body, p: Piece, rest: Body)
    requires At(raw, i, BodyText(Join(pre, Next(p, rest))))
    ensures At(raw, i, BodyText(pre)) && At(raw, i + |BodyText(pre)| + |PieceText(p)|, BodyText(rest))
    ensures |BodyText(Join(pre, Next(p, rest)))| == |BodyText(pre)| + |PieceText(p)| + |BodyText(rest)|
  {
    hide *;
    JoinText(pre, Next(p, rest));
    NextText(p, rest);
    AtConcat(raw, i, BodyText(pre), BodyText(Next(p, rest)));
    AtConcat(raw, i + |BodyText(pre)|, PieceText(p), BodyText(rest));
  }

  lemma NextText(p: Piece, rest: Body)
    ensures BodyText(Next(p, rest)) == PieceText(p) + BodyText(rest)
  {
  }

  lemma SeparatorText(p: Piece)
    requires p.Separator?
    ensures |PieceText(p)| == 1
  {
  }

  lemma CutOfIs(c: Body, name: Bytes)
    requires Lookup(c, name).Some?
    ensures var pre, rest, r := Before(c, name), After(c, name), DropBlanks(After(c, name));
            CutOf(c, name) ==
            if r.Next? && r.piece.Separator? then Cut(LineCut(pre), r.rest)
            else Cut(if CommaCut(pre).Some? then CommaCut(pre).value else LineCut(pre),
                     if FirstField(c, name).value.Scalar? then r else rest)
  {
    hide Before, After, DropBlanks, LineCut, CommaCut, FirstField;
  }

  lemma CutSpanIs(raw: Bytes, span: Span)
    requires span.keyStart <= span.valueEnd <= |raw|
    ensures var comma, previous := NextByte(raw, span.valueEnd, COMMA), PreviousByte(raw, span.keyStart, COMMA);
            CutSpan(raw, span) ==
            if comma.Some? then Splice(raw, TrimLineStart(raw, span.keyStart), comma.value + 1, [])
            else Splice(raw, if previous.Some? then previous.value else TrimLineStart(raw, span.keyStart),
                        span.valueEnd, [])
  {
    hide NextByte, PreviousByte, TrimLineStart, Splice;
  }

  lemma LeftAndRight(raw: Bytes, i: nat, cut: Cut, from: nat, to: nat, end: nat)
    requires LeftAt(raw, i, cut.left, from) && At(raw, to, BodyText(cut.right)) && to + |BodyText(cut.right)| == end
    requires from <= to <= end <= |raw|
    ensures Splice(raw, from, to, []) == raw[..i] + CutText(cut) + raw[end..]
    ensures BodyOk(cut.left.pieces, true) && (cut.left.note.Some? ==> LF !in cut.left.note.value)
  {
    hide BodyText, LeftText, BodyOk;
    var l, r := LeftText(cut.left), BodyText(cut.right);
    assert raw[..from] == raw[..i] + l && raw[to..] == r + raw[end..];
    assert raw[..i] + l + [] + (r + raw[end..]) == raw[..i] + (l + r) + raw[end..];
  }
}
