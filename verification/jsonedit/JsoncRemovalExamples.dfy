// Removals that go wrong, and one that goes right by chance.

module JsoncRemovalExamples {
  import opened ByteSeqs
  import opened JsonGrammar
  import opened JsoncEdit
  import opened JsoncLaws
  import opened JsoncPaths
  import opened JsoncReads
  import opened JsoncRemoval
  import opened JsoncRemovalTheorems
  import opened JsoncRemovedBody
  import opened JsoncScan
  import opened JsoncTheorems
  import opened JsoncTree
  import opened JsoncUnclosed
  import opened Options
  import opened Results

  // ---------------------------------------------------------------- a comma in front of a comment

  const ONE_A: Piece := Field([LOWER_A], [], [], Scalar([0x31]))
  const OBJECT_B: Piece := Field([LOWER_B], [], [], Braces(End))

  // {"a":1,"b":{}/*,*/}
  const SEPARATED := Doc([], Next(ONE_A, Next(Separator, Next(OBJECT_B, COMMENT))), [])

  lemma SeparatedHolds()
    ensures Lookup(SEPARATED.body, [LOWER_B]) == Some(Braces(End))
    ensures Before(SEPARATED.body, [LOWER_B]) == Next(ONE_A, Next(Separator, End))
    ensures After(SEPARATED.body, [LOWER_B]) == COMMENT && FirstField(SEPARATED.body, [LOWER_B]) == OBJECT_B
  {
    var last := Next(OBJECT_B, COMMENT);
    var rest := Next(Separator, last);
    assert SEPARATED.body == Next(ONE_A, rest) && [LOWER_A] != [LOWER_B];
    assert Lookup(last, [LOWER_B]) == Some(Braces(End)) && Before(last, [LOWER_B]) == End;
    assert After(last, [LOWER_B]) == COMMENT && FirstField(last, [LOWER_B]) == OBJECT_B;
    assert Lookup(rest, [LOWER_B]) == Some(Braces(End)) && Before(rest, [LOWER_B]) == Next(Separator, End);
    assert After(rest, [LOWER_B]) == COMMENT && FirstField(rest, [LOWER_B]) == OBJECT_B;
  }

  lemma SeparatedCut()
    ensures Lookup(SEPARATED.body, [LOWER_B]) == Some(Braces(End)) && !CutFits(SEPARATED.body, [LOWER_B])
    ensures CutOf(SEPARATED.body, [LOWER_B]) == Cut(Left(Next(ONE_A, End), None), COMMENT)
    ensures Removed(SEPARATED.body, [LOWER_B]) == Some(MISREAD.body)
  {
    var pre := Next(ONE_A, Next(Separator, End));
    SeparatedHolds();
    hide Lookup, Before, After, FirstField;
    assert TrimBlanks(pre.rest, IsSpace) == pre.rest && TrimBlanks(pre, IsSpace) == pre;
    assert LastPiece(pre) == Separator && Init(pre) == Next(ONE_A, End);
    var k := CutOf(SEPARATED.body, [LOWER_B]);
    assert k == Cut(Left(Next(ONE_A, End), None), COMMENT);
    assert OpenEnd(k.left.pieces) && !ScalarEnds(COMMENT);
    assert Tail(k) == Some(COMMENT);
    OneBeforeComment();
  }

  lemma OneBeforeComment()
    ensures Join(Next(ONE_A, End), COMMENT) == MISREAD.body
  {
    hide COMMENT;
    assert Join(End, COMMENT) == COMMENT && MISREAD.body == Next(ONE_A, COMMENT);
  }

  lemma SeparatedIsReadable()
    ensures DocOk(SEPARATED) && Readable(SEPARATED.body, [[LOWER_B]])
  {
    LetterOk();
    OtherLetterOk();
    CommentOk();
    hide CharsOk;
    assert BodyOk(End, true) && ValueOk(Braces(End)) && PieceOk(OBJECT_B, true);
    assert IsPlain(0x31) && PieceOk(ONE_A, true);
    assert BodyOk(Next(OBJECT_B, COMMENT), true) && BodyOk(SEPARATED.body.rest, true);
    assert Lookup(SEPARATED.body.rest, [LOWER_B]) == Some(Braces(End)) && ReadsTo(SEPARATED.body.rest, [LOWER_B]);
    assert [LOWER_A] != [LOWER_B] && ReadsTo(SEPARATED.body, [LOWER_B]);
  }

  // Removing the last member takes the comma in front of it, although a comment follows: the scalar before
  // is left open, and the object cannot be read to its end any more.
  lemma CommaInFrontOfCommentIsTaken()
    ensures DocOk(SEPARATED) && Readable(SEPARATED.body, [[LOWER_B]])
    ensures Lookup(SEPARATED.body, [LOWER_B]).Some? && !CutFits(SEPARATED.body, [LOWER_B])
    ensures Remove(DocText(SEPARATED), [], [LOWER_B]) == Ok(Removal(MISREAD_TEXT, true))
    ensures Find(MISREAD_TEXT, 0, [LOWER_B]) == Refused(UnexpectedByte)
  {
    hide *;
    SeparatedCut();
    SeparatedIsReadable();
    SeparatedEdges();
    WholeBody(SEPARATED);
    OneName(SEPARATED.body, [LOWER_B]);
    assert [] + [[LOWER_B]] == [[LOWER_B]];
    RemoveEditsTree(SEPARATED, [], [LOWER_B]);
    WithoutIs(SEPARATED, [], [LOWER_B]);
    CommentBehindScalarIsMisread();
  }

  lemma SeparatedEdges()
    ensures SEPARATED.before == [] && SEPARATED.after == []
    ensures SEPARATED.(body := Rebuild(SEPARATED.body, [], MISREAD.body)) == MISREAD
  {
  }

  // ---------------------------------------------------------------- a comment that takes in the brace

  // {//
  // "a":1}
  const NOTED := Doc([], Next(Space(LineComment([])), Next(Field([LOWER_A], [], [], Scalar([0x31])), End)), [])

  // {//}
  const UNCLOSED_TEXT: Bytes := [LBRACE, SLASH, SLASH, RBRACE]

  lemma NotedCut()
    ensures CutOf(NOTED.body, [LOWER_A]) == Cut(Left(End, Some([])), End)
    ensures Lookup(NOTED.body, [LOWER_A]) == Some(Scalar([0x31])) && !CutFits(NOTED.body, [LOWER_A])
    ensures TakesBrace(CutOf(NOTED.body, [LOWER_A]))
  {
    var note := Next(Space(LineComment([])), End);
    var member := Next(Field([LOWER_A], [], [], Scalar([0x31])), End);
    assert NOTED.body == Next(Space(LineComment([])), member);
    assert Before(NOTED.body, [LOWER_A]) == note && After(NOTED.body, [LOWER_A]) == End;
    assert TrimBlanks(note, IsIndent) == note && TrimBlanks(note, IsSpace) == note;
    assert LineOf(End) == RunsOn;
  }

  lemma NotedIsReadable()
    ensures DocOk(NOTED) && Readable(NOTED.body, [[LOWER_A]])
    ensures GapsText(NOTED.before) == [] && NOTED.after == []
  {
    LetterOk();
    var member := Next(Field([LOWER_A], [], [], Scalar([0x31])), End);
    assert IsPlain(0x31) && BodyOk(End, true) && BodyOk(member, true);
    assert ReadsTo(member, [LOWER_A]) && Lookup(NOTED.body, [LOWER_A]) == Some(Scalar([0x31]));
  }

  // Removing the only member, a scalar under a line comment, puts the closing brace into the comment: the
  // object cannot be read any more.
  lemma NoteAboveMemberTakesTheBrace()
    ensures DocOk(NOTED) && Readable(NOTED.body, [[LOWER_A]])
    ensures Remove(DocText(NOTED), [], [LOWER_A]) == Ok(Removal(UNCLOSED_TEXT, true))
    ensures Find(UNCLOSED_TEXT, 0, [LOWER_A]) == Refused(UnterminatedObject)
    ensures !CutFits(NOTED.body, [LOWER_A]) && TakesBrace(CutOf(NOTED.body, [LOWER_A]))
  {
    hide *;
    NotedCut();
    NotedIsReadable();
    NotedText();
    NotedPlace();
    UnclosedFinds();
    RemoveEditsTree(NOTED, [], [LOWER_A]);
  }

  lemma UnclosedFinds()
    ensures Find(UNCLOSED_TEXT, 0, [LOWER_A]) == Refused(UnterminatedObject)
  {
    assert LineEnd(UNCLOSED_TEXT, 2) == LineEnd(UNCLOSED_TEXT, 3) == LineEnd(UNCLOSED_TEXT, 4) == 4;
    assert SkipSpace(UNCLOSED_TEXT, 1) == 4;
    hide LineEnd, SkipSpace, FindFrom;
    assert Close(UNCLOSED_TEXT, 1, LBRACE, RBRACE, 1) == None;
  }

  lemma NotedPlace()
    ensures [] + [[LOWER_A]] == [[LOWER_A]]
    ensures Inner(NOTED.body, []) == Some(NOTED.body) && BraceAt(NOTED.body, RootAt(NOTED), []) == 0
    ensures Lookup(NOTED.body, [LOWER_A]).Some? ==> Seek(NOTED.body, [[LOWER_A]]).Holds?
    ensures CutText(Cut(Left(End, Some([])), End)) == [SLASH, SLASH]
    ensures [LBRACE] + [SLASH, SLASH] + [RBRACE] == UNCLOSED_TEXT
  {
    assert GapsText([]) == [];
    assert BodyText(End) == [] && [] + (LINE_MARK + []) == LINE_MARK;
  }

  lemma NotedText()
    ensures var raw := DocText(NOTED);
            1 + |BodyText(NOTED.body)| < |raw| && raw[..1] == [LBRACE] && raw[1 + |BodyText(NOTED.body)|..] == [RBRACE]
  {
    assert GapsText([]) == [];
    assert DocText(NOTED) == [LBRACE] + BodyText(NOTED.body) + [RBRACE];
  }

  // ---------------------------------------------------------------- a comment that takes in a member and its copy

  // {//
  // "a":1,"b":""/*
  // "b":""//*/
  // }
  const COPIED: Bytes := [QUOTE, LOWER_B, QUOTE, COLON, QUOTE, QUOTE]
  const EMPTY_B: Piece := Field([LOWER_B], [], [], Quoted([]))
  const COPY_BEHIND := Next(Space(BlockComment([LF] + COPIED + LINE_MARK)), Next(Space(Blank(LF)), End))
  const LUCKY := Doc([],
    Next(Space(LineComment([])),
         Next(Field([LOWER_A], [], [], Scalar([0x31])), Next(Separator, Next(EMPTY_B, COPY_BEHIND)))), [])

  // {//"b":""/*
  // "b":""//*/
  // }
  const LEFT_OVER := Doc([],
    Next(Space(LineComment(COPIED + BLOCK_OPEN)), Next(EMPTY_B, Next(Space(LineComment(BLOCK_CLOSE)), End))), [])

  lemma LuckyCut()
    ensures CutOf(LUCKY.body, [LOWER_A]) == Cut(Left(End, Some([])), Next(EMPTY_B, COPY_BEHIND))
    ensures LineOf(CutOf(LUCKY.body, [LOWER_A]).right) == Breaks
    ensures Lookup(LUCKY.body, [LOWER_A]) == Some(Scalar([0x31]))
  {
    var note, rest := Next(Space(LineComment([])), End), Next(Separator, Next(EMPTY_B, COPY_BEHIND));
    assert LUCKY.body == Next(Space(LineComment([])), Next(Field([LOWER_A], [], [], Scalar([0x31])), rest));
    assert Before(LUCKY.body, [LOWER_A]) == note && After(LUCKY.body, [LOWER_A]) == rest;
    assert TrimBlanks(note, IsIndent) == note;
  }

  lemma LuckyBodies()
    ensures DocOk(LUCKY) && DocOk(LEFT_OVER)
    ensures Readable(LUCKY.body, [[LOWER_A]])
  {
    LuckyGaps();
    EmptyCharsOk();
    LetterOk();
    OtherLetterOk();
    hide CharsOk, CommentClose;
    assert IsPlain(0x31) && ValueOk(Scalar([0x31])) && ValueOk(Quoted([])) && PieceOk(EMPTY_B, true);
    assert BodyOk(End, true) && BodyOk(COPY_BEHIND, true);
    assert BodyOk(Next(EMPTY_B, COPY_BEHIND), true);
    assert BodyOk(Next(Space(LineComment(BLOCK_CLOSE)), End), true);
    assert BodyOk(LEFT_OVER.body.rest, true) && BodyOk(LEFT_OVER.body, true);
    var field := Field([LOWER_A], [], [], Scalar([0x31]));
    assert PieceOk(field, true) && BodyOk(Next(Separator, Next(EMPTY_B, COPY_BEHIND)), true);
    assert LUCKY.body.rest == Next(field, Next(Separator, Next(EMPTY_B, COPY_BEHIND)));
    assert BodyOk(LUCKY.body.rest, true) && BodyOk(LUCKY.body, true);
    assert ReadsTo(LUCKY.body, [LOWER_A]);
  }

  lemma LeftOverReads()
    ensures EveryScalarEnds(LEFT_OVER.body)
    ensures Lookup(LEFT_OVER.body, [LOWER_A]) == None && Lookup(LEFT_OVER.body, [LOWER_B]) == Some(Quoted([]))
  {
    var note := Next(Space(LineComment(BLOCK_CLOSE)), End);
    assert EveryScalarEnds(note) && Lookup(note, [LOWER_A]) == None;
    assert LEFT_OVER.body.rest == Next(EMPTY_B, note) && [LOWER_A] != [LOWER_B];
    assert EveryScalarEnds(LEFT_OVER.body.rest) && Lookup(LEFT_OVER.body.rest, [LOWER_A]) == None;
  }

  lemma OtherLetterOk()
    ensures CharsOk([LOWER_B])
  {
    var s := [LOWER_B, QUOTE];
    assert [LOWER_B] + [QUOTE] == s && s[1] == QUOTE;
    assert QuoteEnd(s, 1) == Some(2);
    assert QuoteEnd(s, 0) == Some(2);
  }

  lemma LuckyGaps()
    ensures GapOk(BlockComment([LF] + COPIED + LINE_MARK)) && GapOk(LineComment([])) && GapOk(Blank(LF))
    ensures GapOk(LineComment(COPIED + BLOCK_OPEN)) && GapOk(LineComment(BLOCK_CLOSE))
  {
    var s := [LF] + COPIED + LINE_MARK + BLOCK_CLOSE;
    assert s == [LF, QUOTE, LOWER_B, QUOTE, COLON, QUOTE, QUOTE, SLASH, SLASH, STAR, SLASH];
    assert CommentClose(s, 9) == Some(9);
    assert CommentClose(s, 6) == CommentClose(s, 7) == CommentClose(s, 8) == Some(9);
    assert CommentClose(s, 3) == CommentClose(s, 4) == CommentClose(s, 5) == Some(9);
    assert CommentClose(s, 0) == CommentClose(s, 1) == CommentClose(s, 2) == Some(9);
  }

  lemma LuckyText()
    ensures CutText(Cut(Left(End, Some([])), Next(EMPTY_B, COPY_BEHIND))) == BodyText(LEFT_OVER.body)
  {
    EmptyBText();
    CopyText();
    LeftOverText();
    NextText(EMPTY_B, COPY_BEHIND);
    var left := Left(End, Some([]));
    assert LeftText(left) == [] + (LINE_MARK + []) by {
      assert BodyText(End) == [];
    }
    hide *;
    CutTextIs(Cut(left, Next(EMPTY_B, COPY_BEHIND)));
    LuckyAssembles(LINE_MARK, BLOCK_OPEN, BLOCK_CLOSE, COPIED);
  }

  lemma CopyText()
    ensures BodyText(COPY_BEHIND) == BLOCK_OPEN + ([LF] + COPIED + LINE_MARK + BLOCK_CLOSE) + [LF]
  {
    assert BodyText(Next(Space(Blank(LF)), End)) == [LF];
    hide COPIED, LINE_MARK, BLOCK_OPEN, BLOCK_CLOSE;
    NextText(Space(BlockComment([LF] + COPIED + LINE_MARK)), Next(Space(Blank(LF)), End));
  }

  lemma LeftOverText()
    ensures BodyText(LEFT_OVER.body) ==
            LINE_MARK + (COPIED + BLOCK_OPEN) + [LF] + (COPIED + (LINE_MARK + BLOCK_CLOSE + [LF]))
  {
    EmptyBText();
    var note := Next(Space(LineComment(BLOCK_CLOSE)), End);
    NextText(Space(LineComment(BLOCK_CLOSE)), End);
    assert BodyText(End) == [];
    assert BodyText(note) == LINE_MARK + BLOCK_CLOSE + [LF];
    NextText(EMPTY_B, note);
    NextText(Space(LineComment(COPIED + BLOCK_OPEN)), Next(EMPTY_B, note));
    hide COPIED, LINE_MARK, BLOCK_OPEN, BLOCK_CLOSE, BodyText;
  }

  lemma LuckyAssembles(mark: Bytes, open: Bytes, close: Bytes, copied: Bytes)
    ensures [] + (mark + []) + (copied + (open + ([LF] + copied + mark + close) + [LF])) ==
            mark + (copied + open) + [LF] + (copied + (mark + close + [LF]))
  {
  }

  lemma EmptyBText()
    ensures PieceText(EMPTY_B) == COPIED
  {
    assert GapsText([]) == [];
    assert HeadText([LOWER_B], [], []) == [QUOTE, LOWER_B, QUOTE, COLON];
    assert ValueText(Quoted([])) == [QUOTE, QUOTE];
  }

  lemma LuckyEdges()
    ensures LUCKY.before == [] && LUCKY.after == [] && LEFT_OVER.before == [] && LEFT_OVER.after == []
  {
  }

  lemma WholeBody(d: Doc)
    requires d.before == [] && d.after == []
    ensures RootAt(d) == 0 && BraceAt(d.body, 0, []) == 0 && Inner(d.body, []) == Some(d.body)
    ensures |DocText(d)| == |BodyText(d.body)| + 2 && DocText(d)[..1] == [LBRACE]
    ensures DocText(d)[1 + |BodyText(d.body)|..] == [RBRACE]
    ensures DocText(d) == [LBRACE] + BodyText(d.body) + [RBRACE]
  {
    assert GapsText([]) == [];
    assert DocText(d) == [LBRACE] + BodyText(d.body) + [RBRACE];
  }

  // Where the line ends inside a piece, a cut that takes in a member can still come out right: here the
  // piece is a comment, and the cut uncovers a copy of the member in it.
  lemma CutInCommentCanBeRight()
    ensures DocOk(LUCKY) && Readable(LUCKY.body, [[LOWER_A]])
    ensures LineOf(CutOf(LUCKY.body, [LOWER_A]).right) == Breaks
    ensures var edited := Remove(DocText(LUCKY), [], [LOWER_A]);
            && edited == Ok(Removal(DocText(LEFT_OVER), true))
            && Lacks(edited.value.text, [], [LOWER_A])
            && Finds(edited.value.text, [], [LOWER_B], Quoted([]))
  {
    hide *;
    LuckyCut();
    LuckyBodies();
    LeftOverReads();
    LuckyText();
    LuckyEdges();
    WholeBody(LUCKY);
    WholeBody(LEFT_OVER);
    OneName(LUCKY.body, [LOWER_A]);
    assert [] + [[LOWER_A]] == [[LOWER_A]] && [] + [[LOWER_B]] == [[LOWER_B]];
    RemoveEditsTree(LUCKY, [], [LOWER_A]);
    ReadableReads(LEFT_OVER.body, [LOWER_A]);
    ReadableReads(LEFT_OVER.body, [LOWER_B]);
    OneName(LEFT_OVER.body, [LOWER_A]);
    OneName(LEFT_OVER.body, [LOWER_B]);
    FindsWhatIsThere(LEFT_OVER, [], [LOWER_A]);
    FindsWhatIsThere(LEFT_OVER, [], [LOWER_B]);
    ShowsIs(DocText(LEFT_OVER), [], [LOWER_A], NoMember);
    ShowsIs(DocText(LEFT_OVER), [], [LOWER_B], Holds(Quoted([])));
  }
}
