// What the scanners of mcp/jsonedit.go make of a document: each stops where the tree says, if and only
// if the scalars it passes end.

module JsoncReads {
  import opened ByteSeqs
  import opened JsonGrammar
  import opened JsoncScan
  import opened JsoncTree
  import opened Options
  import opened Results

  lemma AtIndex(raw: Bytes, i: nat, text: Bytes, k: nat)
    requires At(raw, i, text) && k < |text|
    ensures i + k < |raw| && raw[i + k] == text[k]
  {
  }

  // ---------------------------------------------------------------- strings and comments

  lemma {:induction false} QuoteEndAt(raw: Bytes, i: nat, s: Bytes, k: nat)
    requires At(raw, i, s) && QuoteEnd(s, k).Some?
    ensures QuoteEnd(raw, i + k) == Some(i + QuoteEnd(s, k).value)
    decreases |s| - k
  {
    AtIndex(raw, i, s, k);
    if s[k] == BACKSLASH {
      QuoteEndAt(raw, i, s, k + 2);
    } else if s[k] != QUOTE {
      QuoteEndAt(raw, i, s, k + 1);
    }
  }

  lemma KeyEndAt(raw: Bytes, i: nat, chars: Bytes)
    requires At(raw, i, KeyText(chars)) && CharsOk(chars)
    ensures raw[i] == QUOTE && QuoteEnd(raw, i + 1) == Some(i + |KeyText(chars)|)
  {
    hide *;
    KeyTextIs(chars);
    AtIndex(raw, i, KeyText(chars), 0);
    AtConcat(raw, i, [QUOTE], chars + [QUOTE]);
    QuoteEndAt(raw, i + 1, chars + [QUOTE], 0);
  }

  lemma KeyTextIs(chars: Bytes)
    ensures KeyText(chars) == [QUOTE] + (chars + [QUOTE]) && KeyText(chars)[0] == QUOTE
    ensures CharsOk(chars) ==> QuoteEnd(chars + [QUOTE], 0) == Some(|chars| + 1)
  {
    hide QuoteEnd;
  }

  lemma {:induction false} CommentCloseAt(raw: Bytes, i: nat, s: Bytes, k: nat)
    requires At(raw, i, s) && CommentClose(s, k).Some?
    ensures CommentClose(raw, i + k) == Some(i + CommentClose(s, k).value)
    decreases |s| - k
  {
    AtIndex(raw, i, s, k);
    AtIndex(raw, i, s, k + 1);
    if !(s[k] == STAR && s[k + 1] == SLASH) {
      CommentCloseAt(raw, i, s, k + 1);
    }
  }

  lemma {:induction false} LineEndAt(raw: Bytes, i: nat, text: Bytes)
    requires At(raw, i, text + [LF]) && LF !in text
    ensures LineEnd(raw, i) == i + |text| && raw[i + |text|] == LF
    decreases |text|
  {
    AtIndex(raw, i, text + [LF], 0);
    if text != [] {
      assert text + [LF] == [text[0]] + (text[1..] + [LF]);
      AtConcat(raw, i, [text[0]], text[1..] + [LF]);
      LineEndAt(raw, i + 1, text[1..]);
    }
  }

  lemma LineCommentAt(raw: Bytes, i: nat, text: Bytes)
    requires At(raw, i, GapText(LineComment(text))) && LF !in text
    ensures SkipSpace(raw, i) == SkipSpace(raw, i + |GapText(LineComment(text))|)
  {
    AtConcat(raw, i, LINE_MARK + text, [LF]);
    AtConcat(raw, i, LINE_MARK, text);
    AtIndex(raw, i, LINE_MARK, 0);
    AtIndex(raw, i, LINE_MARK, 1);
    LineEndAt(raw, i, LINE_MARK + text);
  }

  lemma BlockCommentAt(raw: Bytes, i: nat, text: Bytes)
    requires At(raw, i, GapText(BlockComment(text))) && GapOk(BlockComment(text))
    ensures SkipSpace(raw, i) == SkipSpace(raw, i + |GapText(BlockComment(text))|)
  {
    AtConcat(raw, i, BLOCK_OPEN, text + BLOCK_CLOSE);
    AtIndex(raw, i, BLOCK_OPEN, 0);
    AtIndex(raw, i, BLOCK_OPEN, 1);
    CommentCloseAt(raw, i + 2, text + BLOCK_CLOSE, 0);
  }

  lemma GapAt(raw: Bytes, i: nat, g: Gap)
    requires At(raw, i, GapText(g)) && GapOk(g)
    ensures SkipSpace(raw, i) == SkipSpace(raw, i + |GapText(g)|)
  {
    match g
    case Blank(b) => AtIndex(raw, i, [b], 0);
    case LineComment(text) => LineCommentAt(raw, i, text);
    case BlockComment(text) => BlockCommentAt(raw, i, text);
  }

  lemma {:induction false} GapsAt(raw: Bytes, i: nat, gs: seq<Gap>)
    requires At(raw, i, GapsText(gs)) && GapsOk(gs)
    ensures SkipSpace(raw, i) == SkipSpace(raw, i + |GapsText(gs)|)
    decreases |gs|
  {
    hide SkipSpace, GapOk, GapText, At;
    if gs != [] {
      AtConcat(raw, i, GapText(gs[0]), GapsText(gs[1..]));
      AtFits(raw, i, GapsText(gs));
      GapAt(raw, i, gs[0]);
      GapsAt(raw, i + |GapText(gs[0])|, gs[1..]);
    }
  }

  // ---------------------------------------------------------------- brackets

  predicate IsBrackets(open: byte, closing: byte) {
    (open == LBRACE && closing == RBRACE) || (open == LBRACKET && closing == RBRACKET)
  }

  // Looking for a bracket may as well start behind the space.
  lemma {:induction false} CloseSkipsSpace(raw: Bytes, i: nat, open: byte, closing: byte, depth: int)
    requires i <= |raw| && IsBrackets(open, closing)
    ensures Close(raw, i, open, closing, depth) == Close(raw, SkipSpace(raw, i), open, closing, depth)
    decreases |raw| - i
  {
    if i < |raw| && IsSpace(raw[i]) {
      CloseSkipsSpace(raw, i + 1, open, closing, depth);
    }
  }

  lemma CloseAfterGap(raw: Bytes, i: nat, g: Gap, open: byte, closing: byte, depth: int)
    requires At(raw, i, GapText(g)) && GapOk(g) && IsBrackets(open, closing)
    ensures Close(raw, i, open, closing, depth) == Close(raw, i + |GapText(g)|, open, closing, depth)
  {
    GapAt(raw, i, g);
    CloseSkipsSpace(raw, i, open, closing, depth);
    CloseSkipsSpace(raw, i + |GapText(g)|, open, closing, depth);
  }

  lemma {:induction false} CloseAfterGaps(raw: Bytes, i: nat, gs: seq<Gap>, open: byte, closing: byte, depth: int)
    requires At(raw, i, GapsText(gs)) && GapsOk(gs) && IsBrackets(open, closing)
    ensures Close(raw, i, open, closing, depth) == Close(raw, i + |GapsText(gs)|, open, closing, depth)
  {
    hide *;
    AtFits(raw, i, GapsText(gs));
    GapsAt(raw, i, gs);
    CloseSkipsSpace(raw, i, open, closing, depth);
    CloseSkipsSpace(raw, i + |GapsText(gs)|, open, closing, depth);
  }

  lemma {:induction false} CloseAfterPlain(raw: Bytes, i: nat, text: Bytes, open: byte, closing: byte, depth: int)
    requires At(raw, i, text) && (forall b <- text :: IsPlain(b)) && IsBrackets(open, closing)
    ensures Close(raw, i, open, closing, depth) == Close(raw, i + |text|, open, closing, depth)
    decreases |text|
  {
    if text != [] {
      AtIndex(raw, i, text, 0);
      assert text == [text[0]] + text[1..] && IsPlain(text[0]);
      AtConcat(raw, i, [text[0]], text[1..]);
      CloseAfterPlain(raw, i + 1, text[1..], open, closing, depth);
    }
  }

  lemma HeadTextIs(key: Bytes, before: seq<Gap>, after: seq<Gap>)
    ensures HeadText(key, before, after) == KeyText(key) + (GapsText(before) + ([COLON] + GapsText(after)))
  {
  }

  // The parts of a member up to its value.
  lemma HeadParts(raw: Bytes, i: nat, key: Bytes, before: seq<Gap>, after: seq<Gap>)
    requires At(raw, i, HeadText(key, before, after))
    ensures var keyEnd := i + |KeyText(key)|;
            var colon := keyEnd + |GapsText(before)|;
            && At(raw, i, KeyText(key)) && At(raw, keyEnd, GapsText(before))
            && colon < |raw| && raw[colon] == COLON && At(raw, colon + 1, GapsText(after))
            && i + |HeadText(key, before, after)| == colon + 1 + |GapsText(after)| <= |raw|
  {
    hide *;
    HeadTextIs(key, before, after);
    AtFits(raw, i, HeadText(key, before, after));
    var keyEnd := i + |KeyText(key)|;
    var colon := keyEnd + |GapsText(before)|;
    AtConcat(raw, i, KeyText(key), GapsText(before) + ([COLON] + GapsText(after)));
    AtConcat(raw, keyEnd, GapsText(before), [COLON] + GapsText(after));
    AtConcat(raw, colon, [COLON], GapsText(after));
    AtIndex(raw, colon, [COLON], 0);
  }

  lemma CloseAfterHead(raw: Bytes, i: nat, key: Bytes, before: seq<Gap>, after: seq<Gap>,
                       open: byte, closing: byte, depth: int)
    requires At(raw, i, HeadText(key, before, after)) && CharsOk(key) && GapsOk(before) && GapsOk(after)
    requires IsBrackets(open, closing)
    ensures Close(raw, i, open, closing, depth) ==
            Close(raw, i + |HeadText(key, before, after)|, open, closing, depth)
  {
    hide *;
    HeadParts(raw, i, key, before, after);
    var keyEnd := i + |KeyText(key)|;
    var colon := keyEnd + |GapsText(before)|;
    CloseAfterString(raw, i, key, open, closing, depth);
    CloseAfterGaps(raw, keyEnd, before, open, closing, depth);
    CloseAfterByte(raw, colon, open, closing, depth);
    CloseAfterGaps(raw, colon + 1, after, open, closing, depth);
  }

  lemma CloseAfterString(raw: Bytes, i: nat, chars: Bytes, open: byte, closing: byte, depth: int)
    requires At(raw, i, KeyText(chars)) && CharsOk(chars)
    ensures Close(raw, i, open, closing, depth) == Close(raw, i + |KeyText(chars)|, open, closing, depth)
  {
    KeyEndAt(raw, i, chars);
  }

  lemma CloseAfterByte(raw: Bytes, i: nat, open: byte, closing: byte, depth: int)
    requires i < |raw| && (raw[i] == COLON || raw[i] == COMMA) && IsBrackets(open, closing)
    ensures Close(raw, i, open, closing, depth) == Close(raw, i + 1, open, closing, depth)
  {
  }

  lemma BodyInside(raw: Bytes, i: nat, v: Value)
    requires At(raw, i, ValueText(v)) && (v.Braces? || v.Brackets?)
    ensures At(raw, i + 1, BodyText(v.body))
    ensures var end := i + 1 + |BodyText(v.body)|;
            && end < |raw| && i + |ValueText(v)| == end + 1
            && raw[i] == (if v.Braces? then LBRACE else LBRACKET)
            && raw[end] == (if v.Braces? then RBRACE else RBRACKET)
  {
    var open: byte := if v.Braces? then LBRACE else LBRACKET;
    var closing: byte := if v.Braces? then RBRACE else RBRACKET;
    AtConcat(raw, i, [open] + BodyText(v.body), [closing]);
    AtConcat(raw, i, [open], BodyText(v.body));
    AtIndex(raw, i, [open], 0);
    AtIndex(raw, i + 1 + |BodyText(v.body)|, [closing], 0);
  }

  // Inside brackets, the search for the closing one passes over every whole value, member and body.
  lemma {:induction false} CloseAfterValue(raw: Bytes, i: nat, v: Value, open: byte, closing: byte, depth: int)
    requires At(raw, i, ValueText(v)) && ValueOk(v) && IsBrackets(open, closing) && depth >= 1
    ensures Close(raw, i, open, closing, depth) == Close(raw, i + |ValueText(v)|, open, closing, depth)
    decreases v
  {
    hide At, BodyText, BodyOk, CharsOk, KeyText, SkipSpace;
    match v
    case Scalar(text) => CloseAfterPlain(raw, i, text, open, closing, depth);
    case Quoted(chars) => CloseAfterString(raw, i, chars, open, closing, depth);
    case Braces(body) =>
      BodyInside(raw, i, v);
      CloseAfterBody(raw, i + 1, body, true, open, closing, if open == LBRACE then depth + 1 else depth);
    case Brackets(body) =>
      BodyInside(raw, i, v);
      CloseAfterBody(raw, i + 1, body, false, open, closing, if open == LBRACKET then depth + 1 else depth);
  }

  lemma {:induction false} CloseAfterPiece(raw: Bytes, i: nat, p: Piece, inObject: bool,
                                           open: byte, closing: byte, depth: int)
    requires At(raw, i, PieceText(p)) && PieceOk(p, inObject) && IsBrackets(open, closing) && depth >= 1
    ensures Close(raw, i, open, closing, depth) == Close(raw, i + |PieceText(p)|, open, closing, depth)
    decreases p
  {
    hide Close, At, HeadText, ValueText, GapText, GapOk, GapsOk, CharsOk, ValueOk, IsBrackets;
    match p
    case Space(gap) => CloseAfterGap(raw, i, gap, open, closing, depth);
    case Separator =>
      AtIndex(raw, i, PieceText(p), 0);
      CloseAfterByte(raw, i, open, closing, depth);
    case Field(key, before, after, value) =>
      AtConcat(raw, i, HeadText(key, before, after), ValueText(value));
      CloseAfterHead(raw, i, key, before, after, open, closing, depth);
      CloseAfterValue(raw, i + |HeadText(key, before, after)|, value, open, closing, depth);
    case Entry(value) => CloseAfterValue(raw, i, value, open, closing, depth);
  }

  lemma {:induction false} CloseAfterBody(raw: Bytes, i: nat, b: Body, inObject: bool,
                                          open: byte, closing: byte, depth: int)
    requires At(raw, i, BodyText(b)) && BodyOk(b, inObject) && IsBrackets(open, closing) && depth >= 1
    ensures Close(raw, i, open, closing, depth) == Close(raw, i + |BodyText(b)|, open, closing, depth)
    decreases b
  {
    hide Close, At, PieceText, PieceOk, IsBrackets;
    if b.Next? {
      AtConcat(raw, i, PieceText(b.piece), BodyText(b.rest));
      CloseAfterPiece(raw, i, b.piece, inObject, open, closing, depth);
      CloseAfterBody(raw, i + |PieceText(b.piece)|, b.rest, inObject, open, closing, depth);
    }
  }

  // The closing bracket of a well-formed object or list is its own.
  lemma ClosesAtEnd(raw: Bytes, i: nat, v: Value, open: byte, closing: byte)
    requires At(raw, i, ValueText(v)) && ValueOk(v)
    requires || (v.Braces? && open == LBRACE && closing == RBRACE)
             || (v.Brackets? && open == LBRACKET && closing == RBRACKET)
    ensures Close(raw, i, open, closing, 0) == Some(i + |ValueText(v)| - 1)
  {
    hide *;
    BodyInside(raw, i, v);
    InsideOk(v);
    CloseOpens(raw, i, open, closing);
    CloseAfterBody(raw, i + 1, v.body, v.Braces?, open, closing, 1);
    CloseCloses(raw, i + 1 + |BodyText(v.body)|, open, closing);
  }

  lemma InsideOk(v: Value)
    requires ValueOk(v) && (v.Braces? || v.Brackets?)
    ensures BodyOk(v.body, v.Braces?)
  {
    hide BodyOk;
  }

  lemma CloseOpens(raw: Bytes, i: nat, open: byte, closing: byte)
    requires i < |raw| && raw[i] == open
    requires (open == LBRACE && closing == RBRACE) || (open == LBRACKET && closing == RBRACKET)
    ensures IsBrackets(open, closing) && Close(raw, i, open, closing, 0) == Close(raw, i + 1, open, closing, 1)
  {
  }

  lemma CloseCloses(raw: Bytes, i: nat, open: byte, closing: byte)
    requires i < |raw| && raw[i] == closing && IsBrackets(open, closing)
    ensures Close(raw, i, open, closing, 1) == Some(i)
  {
  }

  // ---------------------------------------------------------------- values

  lemma ValueStarts(raw: Bytes, i: nat, v: Value)
    requires At(raw, i, ValueText(v)) && ValueOk(v)
    ensures i < |raw| && SkipSpace(raw, i) == i
    ensures raw[i] == LBRACE <==> v.Braces?
    ensures raw[i] == QUOTE <==> v.Quoted?
    ensures raw[i] == LBRACKET <==> v.Brackets?
  {
    AtIndex(raw, i, ValueText(v), 0);
    if v.Scalar? {
      assert IsPlain(v.text[0]);
    }
  }

  lemma {:induction false} ScalarEndAt(raw: Bytes, i: nat, text: Bytes)
    requires At(raw, i, text) && forall b <- text :: IsPlain(b) || IsSpace(b)
    ensures ScalarEnd(raw, i) == ScalarEnd(raw, i + |text|)
    decreases |text|
  {
    if text != [] {
      AtIndex(raw, i, text, 0);
      assert text == [text[0]] + text[1..];
      assert IsPlain(text[0]) || IsSpace(text[0]);
      AtConcat(raw, i, [text[0]], text[1..]);
      ScalarEndAt(raw, i + 1, text[1..]);
    }
  }

  // Behind a scalar stand blanks and then its separator, or the end of the object.
  lemma {:induction false} BlanksEnd(raw: Bytes, i: nat, rest: Body)
    requires At(raw, i, BodyText(rest)) && BodyOk(rest, true) && ScalarEnds(rest)
    requires i + |BodyText(rest)| < |raw| && raw[i + |BodyText(rest)|] == RBRACE
    ensures BlankRun(rest) <= |BodyText(rest)|
    ensures ScalarEnd(raw, i) == i + BlankRun(rest) && SkipSpace(raw, i) == SkipSpace(raw, i + BlankRun(rest))
    decreases rest
  {
    hide *;
    if rest.Next? && !rest.piece.Separator? {
      BodyParts(raw, i, rest);
      BlankFirst(rest);
      AtIndex(raw, i, PieceText(rest.piece), 0);
      BlanksEnd(raw, i + 1, rest.rest);
      ScalarEndsOn(raw, i);
    } else {
      ScalarEndsHere(raw, i, rest);
    }
  }

  lemma BlankFirst(rest: Body)
    requires rest.Next? && !rest.piece.Separator? && ScalarEnds(rest) && BodyOk(rest, true)
    ensures ScalarEnds(rest.rest) && BlankRun(rest) == 1 + BlankRun(rest.rest)
    ensures |PieceText(rest.piece)| == 1 && IsSpace(PieceText(rest.piece)[0])
  {
  }

  lemma ScalarEndsHere(raw: Bytes, i: nat, rest: Body)
    requires rest.End? || rest.piece.Separator?
    requires At(raw, i, BodyText(rest)) && i + |BodyText(rest)| < |raw| && raw[i + |BodyText(rest)|] == RBRACE
    ensures BlankRun(rest) == 0 && ScalarEnd(raw, i) == i
  {
  }

  lemma ScalarEndsOn(raw: Bytes, i: nat)
    requires i < |raw| && IsSpace(raw[i])
    ensures ScalarEnd(raw, i) == ScalarEnd(raw, i + 1) && SkipSpace(raw, i) == SkipSpace(raw, i + 1)
  {
  }

  lemma BracketsEndAt(raw: Bytes, i: nat, v: Value)
    requires At(raw, i, ValueText(v)) && ValueOk(v) && (v.Braces? || v.Brackets?)
    ensures ValueEnd(raw, i) == Some(i + |ValueText(v)|)
  {
    ValueStarts(raw, i, v);
    hide At, ValueText, ValueOk, Close, SkipSpace;
    if v.Braces? {
      ClosesAtEnd(raw, i, v, LBRACE, RBRACE);
    } else {
      ClosesAtEnd(raw, i, v, LBRACKET, RBRACKET);
    }
  }

  lemma StringEndAt(raw: Bytes, i: nat, v: Value)
    requires At(raw, i, ValueText(v)) && ValueOk(v) && v.Quoted?
    ensures ValueEnd(raw, i) == Some(i + |ValueText(v)|)
  {
    ValueStarts(raw, i, v);
    KeyEndAt(raw, i, v.chars);
  }

  lemma ScalarValueEndAt(raw: Bytes, i: nat, v: Value, next: nat)
    requires At(raw, i, ValueText(v)) && ValueOk(v) && v.Scalar?
    requires i + |ValueText(v)| <= |raw| && ScalarEnd(raw, i + |ValueText(v)|) == next
    ensures ValueEnd(raw, i) == Some(next)
  {
    ValueStarts(raw, i, v);
    hide At, SkipSpace;
    ScalarEndAt(raw, i, v.text);
  }

  lemma ValueEndAt(raw: Bytes, i: nat, v: Value, rest: Body)
    requires At(raw, i, ValueText(v)) && At(raw, i + |ValueText(v)|, BodyText(rest))
    requires ValueOk(v) && BodyOk(rest, true) && (v.Scalar? ==> ScalarEnds(rest))
    requires var end := i + |ValueText(v)| + |BodyText(rest)|; end < |raw| && raw[end] == RBRACE
    ensures var next := i + |ValueText(v)| + if v.Scalar? then BlankRun(rest) else 0;
            && ValueEnd(raw, i) == Some(next) && next <= i + |ValueText(v)| + |BodyText(rest)|
            && SkipSpace(raw, next) == SkipSpace(raw, i + |ValueText(v)|)
  {
    hide *;
    match v
    case Scalar(_) =>
      BlanksEnd(raw, i + |ValueText(v)|, rest);
      ScalarValueEndAt(raw, i, v, i + |ValueText(v)| + BlankRun(rest));
    case Quoted(_) => StringEndAt(raw, i, v);
    case Braces(_) => BracketsEndAt(raw, i, v);
    case Brackets(_) => BracketsEndAt(raw, i, v);
  }

  // ---------------------------------------------------------------- members

  lemma {:induction false} FindSkipsSpace(raw: Bytes, i: nat, end: nat, target: Bytes)
    requires i <= |raw| && end <= |raw|
    ensures FindFrom(raw, i, end, target) == FindFrom(raw, SkipSpace(raw, i), end, target)
    decreases |raw| - i
  {
    if i < end && IsSpace(raw[i]) {
      FindSkipsSpace(raw, i + 1, end, target);
    }
  }

  lemma FieldParts(raw: Bytes, i: nat, p: Piece)
    requires p.Field? && PieceOk(p, true) && At(raw, i, PieceText(p))
    ensures CharsOk(p.key) && GapsOk(p.before) && GapsOk(p.after) && ValueOk(p.value)
    ensures At(raw, i, HeadText(p.key, p.before, p.after))
    ensures At(raw, i + |HeadText(p.key, p.before, p.after)|, ValueText(p.value))
    ensures |PieceText(p)| == |HeadText(p.key, p.before, p.after)| + |ValueText(p.value)|
  {
    hide HeadText, ValueText;
    AtConcat(raw, i, HeadText(p.key, p.before, p.after), ValueText(p.value));
  }

  lemma AtSlice(raw: Bytes, i: nat, text: Bytes)
    requires At(raw, i, text)
    ensures i + |text| <= |raw| && raw[i..i + |text|] == text
  {
  }

  lemma StopsAt(raw: Bytes, i: nat)
    requires i < |raw| && raw[i] == COLON
    ensures SkipSpace(raw, i) == i
  {
  }

  // The three stops of a member: its key, its colon and its value.
  lemma HeadAt(raw: Bytes, i: nat, p: Piece)
    requires p.Field? && PieceOk(p, true) && At(raw, i, PieceText(p))
    ensures var keyEnd := i + |KeyText(p.key)|;
            var colon := keyEnd + |GapsText(p.before)|;
            var start := i + |HeadText(p.key, p.before, p.after)|;
            && colon < start <= |raw|
            && raw[i] == QUOTE && QuoteEnd(raw, i + 1) == Some(keyEnd) && raw[i..keyEnd] == KeyText(p.key)
            && SkipSpace(raw, keyEnd) == colon && raw[colon] == COLON
            && SkipSpace(raw, colon + 1) == start && At(raw, start, ValueText(p.value))
  {
    hide *;
    FieldParts(raw, i, p);
    HeadParts(raw, i, p.key, p.before, p.after);
    var keyEnd := i + |KeyText(p.key)|;
    var colon := keyEnd + |GapsText(p.before)|;
    KeyEndAt(raw, i, p.key);
    AtSlice(raw, i, KeyText(p.key));
    GapsAt(raw, keyEnd, p.before);
    StopsAt(raw, colon);
    GapsAt(raw, colon + 1, p.after);
    ValueStarts(raw, i + |HeadText(p.key, p.before, p.after)|, p.value);
  }

  // Finding a member of a body that can be read that far finds the first one with the name, exactly
  // where it stands.
  lemma {:induction false} FindsInBody(raw: Bytes, i: nat, b: Body, name: Bytes)
    requires At(raw, i, BodyText(b)) && BodyOk(b, true) && ReadsTo(b, name)
    requires i + |BodyText(b)| < |raw| && raw[i + |BodyText(b)|] == RBRACE
    ensures FindFrom(raw, i, i + |BodyText(b)|, KeyText(name)) == Ok(Locate(b, i, name))
    decreases b
  {
    hide *;
    var end := i + |BodyText(b)|;
    if b.End? {
      FindsNothing(raw, i, name);
    } else {
      ReadsOn(b, name);
      FindStep(raw, i, b, name);
      if !IsField(b.piece, name) {
        BodyParts(raw, i, b);
        FindsInBody(raw, i + |PieceText(b.piece)|, b.rest, name);
      }
    }
  }

  lemma ReadsOn(b: Body, name: Bytes)
    requires b.Next? && ReadsTo(b, name)
    ensures HeadEnds(b) && (!IsField(b.piece, name) ==> ReadsTo(b.rest, name))
  {
  }

  // Behind a head that ends, the search goes on unless the head is what it looks for.
  lemma FindStep(raw: Bytes, i: nat, b: Body, name: Bytes)
    requires b.Next? && At(raw, i, BodyText(b)) && BodyOk(b, true) && HeadEnds(b)
    requires i + |BodyText(b)| < |raw| && raw[i + |BodyText(b)|] == RBRACE
    ensures if IsField(b.piece, name) then
              FindFrom(raw, i, i + |BodyText(b)|, KeyText(name)) == Ok(Locate(b, i, name))
            else
              && FindFrom(raw, i, i + |BodyText(b)|, KeyText(name)) ==
                 FindFrom(raw, i + |PieceText(b.piece)|, i + |BodyText(b)|, KeyText(name))
              && Locate(b, i, name) == Locate(b.rest, i + |PieceText(b.piece)|, name)
  {
    hide *;
    IsFieldIs(b.piece, name);
    BodyParts(raw, i, b);
    if b.piece.Field? {
      FindReadsField(raw, i, b, name);
    } else {
      PieceIsThere(b.piece);
      FindPassesPiece(raw, i, b.piece, i + |BodyText(b)|, KeyText(name));
    }
    if !IsField(b.piece, name) {
      LocatesNext(b, i, name);
    }
  }

  lemma IsFieldIs(p: Piece, name: Bytes)
    ensures IsField(p, name) <==> p.Field? && p.key == name
  {
  }

  lemma FindsNothing(raw: Bytes, i: nat, name: Bytes)
    requires i <= |raw|
    ensures |BodyText(End)| == 0 && FindFrom(raw, i, i, KeyText(name)) == Ok(None) && Locate(End, i, name) == None
  {
  }

  lemma LocatesNext(b: Body, i: nat, name: Bytes)
    requires b.Next? && !IsField(b.piece, name)
    ensures Locate(b, i, name) == Locate(b.rest, i + |PieceText(b.piece)|, name)
  {
  }

  lemma PieceIsThere(p: Piece)
    requires PieceOk(p, true)
    ensures |PieceText(p)| > 0
  {
  }

  lemma FindPassesPiece(raw: Bytes, i: nat, p: Piece, end: nat, target: Bytes)
    requires !p.Field? && PieceOk(p, true) && At(raw, i, PieceText(p)) && i < end <= |raw|
    ensures FindFrom(raw, i, end, target) == FindFrom(raw, i + |PieceText(p)|, end, target)
  {
    hide FindFrom, GapText, GapOk;
    if p.Space? {
      FindPassesGap(raw, i, p.gap, end, target);
    } else {
      assert PieceText(p) == [COMMA];
      FindPassesComma(raw, i, end, target);
    }
  }

  lemma FindPassesGap(raw: Bytes, i: nat, gap: Gap, end: nat, target: Bytes)
    requires At(raw, i, GapText(gap)) && GapOk(gap) && end <= |raw|
    ensures FindFrom(raw, i, end, target) == FindFrom(raw, i + |GapText(gap)|, end, target)
  {
    GapAt(raw, i, gap);
    FindSkipsSpace(raw, i, end, target);
    FindSkipsSpace(raw, i + |GapText(gap)|, end, target);
  }

  lemma FindPassesComma(raw: Bytes, i: nat, end: nat, target: Bytes)
    requires At(raw, i, [COMMA]) && i < end <= |raw|
    ensures FindFrom(raw, i, end, target) == FindFrom(raw, i + 1, end, target)
  {
    AtIndex(raw, i, [COMMA], 0);
    hide At, SkipSpace, ValueEnd, QuoteEnd;
  }

  lemma FindAtKey(raw: Bytes, i: nat, end: nat, target: Bytes, keyEnd: nat, colon: nat, start: nat, next: nat)
    requires i < end <= |raw| && keyEnd <= |raw| && raw[i] == QUOTE && QuoteEnd(raw, i + 1) == Some(keyEnd)
    requires SkipSpace(raw, keyEnd) == colon < end && raw[colon] == COLON
    requires SkipSpace(raw, colon + 1) == start <= |raw| && ValueEnd(raw, start) == Some(next)
    ensures FindFrom(raw, i, end, target) ==
            if next > end then Refused(MalformedValue)
            else if raw[i..keyEnd] == target then Ok(Some(Span(i, start, next))) else FindFrom(raw, next, end, target)
  {
    hide SkipSpace, ValueEnd, QuoteEnd;
  }

  lemma FindReadsField(raw: Bytes, i: nat, b: Body, name: Bytes)
    requires b.Next? && b.piece.Field? && At(raw, i, BodyText(b)) && BodyOk(b, true) && HeadEnds(b)
    requires i + |BodyText(b)| < |raw| && raw[i + |BodyText(b)|] == RBRACE
    ensures FindFrom(raw, i, i + |BodyText(b)|, KeyText(name)) ==
            if b.piece.key == name then Ok(Locate(b, i, name))
            else FindFrom(raw, i + |PieceText(b.piece)|, i + |BodyText(b)|, KeyText(name))
  {
    hide *;
    var p := b.piece;
    BodyParts(raw, i, b);
    FieldParts(raw, i, p);
    HeadAt(raw, i, p);
    var end, target := i + |BodyText(b)|, KeyText(name);
    var keyEnd, next := i + |KeyText(p.key)|, i + |PieceText(p)|;
    var start := i + |HeadText(p.key, p.before, p.after)|;
    HeadEndsIs(b);
    ValueEndAt(raw, start, p.value, b.rest);
    SameKey(p.key, name);
    FindAtKey(raw, i, end, target, keyEnd, keyEnd + |GapsText(p.before)|, start, ValueEnd(raw, start).value);
    FindSkipsSpace(raw, ValueEnd(raw, start).value, end, target);
    FindSkipsSpace(raw, next, end, target);
    if p.key == name {
      LocatesFirst(b, i, name);
    }
  }

  lemma HeadEndsIs(b: Body)
    requires b.Next? && b.piece.Field?
    ensures HeadEnds(b) <==> (b.piece.value.Scalar? ==> ScalarEnds(b.rest))
  {
  }

  lemma LocatesFirst(b: Body, i: nat, name: Bytes)
    requires b.Next? && b.piece.Field? && b.piece.key == name
    ensures var start := i + |HeadText(name, b.piece.before, b.piece.after)|;
            var end := start + |ValueText(b.piece.value)| + if b.piece.value.Scalar? then BlankRun(b.rest) else 0;
            Locate(b, i, name) == Some(Span(i, start, end))
  {
  }

  lemma BodyParts(raw: Bytes, i: nat, b: Body)
    requires b.Next? && At(raw, i, BodyText(b)) && BodyOk(b, true)
    ensures At(raw, i, PieceText(b.piece)) && At(raw, i + |PieceText(b.piece)|, BodyText(b.rest))
    ensures |BodyText(b)| == |PieceText(b.piece)| + |BodyText(b.rest)|
    ensures PieceOk(b.piece, true) && BodyOk(b.rest, true)
  {
    hide PieceText;
    AtConcat(raw, i, PieceText(b.piece), BodyText(b.rest));
  }

  lemma BlankOk(p: Piece)
    requires PieceOk(p, true) && p.Space? && p.gap.Blank?
    ensures IsSpace(p.gap.b) && PieceText(p) == [p.gap.b]
  {
  }

  lemma SameKey(key: Bytes, name: Bytes)
    ensures KeyText(key) == KeyText(name) <==> key == name
  {
    assert KeyText(key)[1..|key| + 1] == key && KeyText(name)[1..|name| + 1] == name;
  }

  lemma BracesAreOk(b: Body)
    requires BodyOk(b, true)
    ensures ValueOk(Braces(b))
  {
  }

  lemma FindIs(raw: Bytes, i: nat, b: Body, name: Bytes)
    requires At(raw, i, ValueText(Braces(b))) && ValueOk(Braces(b))
    ensures var end := i + 1 + |BodyText(b)|;
            end < |raw| && raw[end] == RBRACE && Find(raw, i, name) == FindFrom(raw, i + 1, end, KeyText(name))
  {
    hide BodyText, ValueText, ValueOk, At, FindFrom, Close, KeyText;
    BodyInside(raw, i, Braces(b));
    ClosesAtEnd(raw, i, Braces(b), LBRACE, RBRACE);
  }

  lemma FindsInObject(raw: Bytes, i: nat, b: Body, name: Bytes)
    requires At(raw, i, ValueText(Braces(b))) && BodyOk(b, true) && ReadsTo(b, name)
    ensures Find(raw, i, name) == Ok(Locate(b, i + 1, name))
  {
    hide *;
    BracesAreOk(b);
    BodyInside(raw, i, Braces(b));
    FindIs(raw, i, b, name);
    FindsInBody(raw, i + 1, b, name);
  }

  // A located span covers the value, and the blanks behind it if it is a scalar.
  lemma {:induction false} LocatedAt(raw: Bytes, i: nat, b: Body, name: Bytes)
    requires At(raw, i, BodyText(b)) && BodyOk(b, true) && Lookup(b, name).Some?
    ensures var v, span := Lookup(b, name).value, Locate(b, i, name).value;
            && ValueOk(v) && i <= span.keyStart < span.valueStart && At(raw, span.valueStart, ValueText(v))
            && span.valueStart + |ValueText(v)| <= i + |BodyText(b)|
            && (!v.Scalar? ==> span.valueEnd == span.valueStart + |ValueText(v)|)
    decreases b
  {
    hide At, PieceOk, PieceText, HeadText, ValueText, ValueOk, GapText, KeyText;
    BodyParts(raw, i, b);
    if IsField(b.piece, name) {
      FieldParts(raw, i, b.piece);
      HeadAt(raw, i, b.piece);
    } else {
      LocatedAt(raw, i + |PieceText(b.piece)|, b.rest, name);
    }
  }

  // ---------------------------------------------------------------- scalars that do not end

  // What stands behind the blanks of a body that is no separator does not end a scalar either.
  lemma {:induction false} ScalarRunsOn(raw: Bytes, i: nat, rest: Body)
    requires At(raw, i, BodyText(rest)) && BodyOk(rest, true) && !ScalarEnds(rest)
    ensures var stop := i + BlankRun(rest);
            stop < |raw| && !IsSpace(raw[stop]) && ScalarEnd(raw, i) > stop
    decreases rest
  {
    hide *;
    RunsOnCases(rest);
    BodyParts(raw, i, rest);
    AtIndex(raw, i, PieceText(rest.piece), 0);
    if rest.piece.Space? && rest.piece.gap.Blank? {
      ScalarRunsOn(raw, i + 1, rest.rest);
      ScalarEndsOn(raw, i);
    } else {
      ScalarPasses(raw, i);
    }
  }

  lemma RunsOnCases(rest: Body)
    requires BodyOk(rest, true) && !ScalarEnds(rest)
    ensures rest.Next? && PieceText(rest.piece) != []
    ensures if rest.piece.Space? && rest.piece.gap.Blank? then
              && !ScalarEnds(rest.rest) && BlankRun(rest) == 1 + BlankRun(rest.rest)
              && |PieceText(rest.piece)| == 1 && IsSpace(PieceText(rest.piece)[0])
            else
              BlankRun(rest) == 0 && PieceText(rest.piece)[0] in {SLASH, QUOTE}
  {
  }

  lemma ScalarPasses(raw: Bytes, i: nat)
    requires i < |raw| && raw[i] in {SLASH, QUOTE}
    ensures !IsSpace(raw[i]) && ScalarEnd(raw, i) > i
  {
  }

  // A scalar value is read to its end if and only if nothing but blanks stands between it and its
  // separator.
  lemma ScalarReadIffItEnds(raw: Bytes, i: nat, v: Value, rest: Body)
    requires At(raw, i, ValueText(v)) && At(raw, i + |ValueText(v)|, BodyText(rest))
    requires ValueOk(v) && v.Scalar? && BodyOk(rest, true)
    requires var end := i + |ValueText(v)| + |BodyText(rest)|; end < |raw| && raw[end] == RBRACE
    ensures ValueEnd(raw, i) == Some(i + |ValueText(v)| + BlankRun(rest)) <==> ScalarEnds(rest)
  {
    hide *;
    var next := i + |ValueText(v)|;
    ScalarValueEndAt(raw, i, v, ScalarEnd(raw, next));
    if ScalarEnds(rest) {
      BlanksEnd(raw, next, rest);
    } else {
      ScalarRunsOn(raw, next, rest);
    }
  }

  // Looking for the scalar that does not end refuses the object, or finds a span that runs into what
  // stands behind the blanks.
  ghost predicate Misread(raw: Bytes, found: Result<Option<Span>, EditError>, at: Span) {
    || found == Refused(MalformedValue)
    || (found.Ok? && found.value.Some? && found.value.value.valueStart == at.valueStart
        && at.valueEnd < found.value.value.valueEnd && at.valueEnd < |raw| && !IsSpace(raw[at.valueEnd]))
  }

  lemma {:induction false} FindMisreads(raw: Bytes, i: nat, b: Body, name: Bytes)
    requires At(raw, i, BodyText(b)) && BodyOk(b, true) && MisreadAt(b, name)
    requires i + |BodyText(b)| < |raw| && raw[i + |BodyText(b)|] == RBRACE
    ensures Lookup(b, name).Some?
    ensures Misread(raw, FindFrom(raw, i, i + |BodyText(b)|, KeyText(name)), Locate(b, i, name).value)
    decreases b
  {
    hide *;
    MisreadCases(b, name);
    LocatesIffLookup(b, i, name);
    if IsField(b.piece, name) {
      FindMisreadsHead(raw, i, b, name);
    } else {
      FindStep(raw, i, b, name);
      BodyParts(raw, i, b);
      FindMisreads(raw, i + |PieceText(b.piece)|, b.rest, name);
    }
  }

  lemma MisreadCases(b: Body, name: Bytes)
    requires MisreadAt(b, name)
    ensures b.Next?
    ensures if IsField(b.piece, name) then
              b.piece.Field? && b.piece.key == name && b.piece.value.Scalar? && !ScalarEnds(b.rest)
              && Lookup(b, name).Some?
            else
              HeadEnds(b) && MisreadAt(b.rest, name) && Lookup(b, name) == Lookup(b.rest, name)
  {
  }

  lemma LocatesIffLookup(b: Body, i: nat, name: Bytes)
    ensures Locate(b, i, name).Some? <==> Lookup(b, name).Some?
  {
  }

  lemma FindMisreadsHead(raw: Bytes, i: nat, b: Body, name: Bytes)
    requires b.Next? && b.piece.Field? && b.piece.key == name && b.piece.value.Scalar? && !ScalarEnds(b.rest)
    requires At(raw, i, BodyText(b)) && BodyOk(b, true)
    requires i + |BodyText(b)| < |raw| && raw[i + |BodyText(b)|] == RBRACE && Locate(b, i, name).Some?
    ensures Misread(raw, FindFrom(raw, i, i + |BodyText(b)|, KeyText(name)), Locate(b, i, name).value)
  {
    hide *;
    var p := b.piece;
    BodyParts(raw, i, b);
    FieldParts(raw, i, p);
    HeadAt(raw, i, p);
    var end, keyEnd := i + |BodyText(b)|, i + |KeyText(p.key)|;
    var start := i + |HeadText(p.key, p.before, p.after)|;
    var next := start + |ValueText(p.value)|;
    ScalarValueEndAt(raw, start, p.value, ScalarEnd(raw, next));
    ScalarRunsOn(raw, next, b.rest);
    FindAtKey(raw, i, end, KeyText(name), keyEnd, keyEnd + |GapsText(p.before)|, start, ScalarEnd(raw, next));
    LocatesFirst(b, i, name);
    MisreadIs(raw, i, start, next + BlankRun(b.rest), ScalarEnd(raw, next), end);
  }

  lemma MisreadIs(raw: Bytes, i: nat, start: nat, stop: nat, next: nat, end: nat)
    requires stop < next && stop < |raw| && !IsSpace(raw[stop])
    ensures Misread(raw, if next > end then Refused(MalformedValue) else Ok(Some(Span(i, start, next))),
                    Span(i, start, stop))
  {
  }

  lemma {:induction false} ReadableReads(b: Body, name: Bytes)
    requires EveryScalarEnds(b)
    ensures ReadsTo(b, name)
    decreases b
  {
    if b.Next? && !IsField(b.piece, name) {
      ReadableReads(b.rest, name);
    }
  }

  lemma {:induction false} FirstMisread(b: Body) returns (name: Bytes)
    requires DistinctKeys(b) && !EveryScalarEnds(b)
    ensures MisreadAt(b, name) && Lookup(b, name).Some?
    decreases b
  {
    if !HeadEnds(b) {
      name := b.piece.key;
    } else {
      name := FirstMisread(b.rest);
    }
  }

  // Every name of an object with distinct keys is found where it stands, and every other name is
  // found missing, if and only if each of its scalars is followed by blanks and a separator or the end.
  lemma EveryNameIsFoundIffScalarsEnd(raw: Bytes, i: nat, b: Body)
    requires At(raw, i, BodyText(b)) && BodyOk(b, true) && DistinctKeys(b)
    requires i + |BodyText(b)| < |raw| && raw[i + |BodyText(b)|] == RBRACE
    ensures (forall name :: FindFrom(raw, i, i + |BodyText(b)|, KeyText(name)) == Ok(Locate(b, i, name)))
            <==> EveryScalarEnds(b)
  {
    hide *;
    if EveryScalarEnds(b) {
      forall name: Bytes ensures FindFrom(raw, i, i + |BodyText(b)|, KeyText(name)) == Ok(Locate(b, i, name)) {
        ReadableReads(b, name);
        FindsInBody(raw, i, b, name);
      }
    } else {
      var name := FirstMisread(b);
      FindMisreads(raw, i, b, name);
      NotLocated(raw, FindFrom(raw, i, i + |BodyText(b)|, KeyText(name)), Locate(b, i, name));
    }
  }

  lemma NotLocated(raw: Bytes, found: Result<Option<Span>, EditError>, at: Option<Span>)
    requires at.Some? && Misread(raw, found, at.value)
    ensures found != Ok(at)
  {
  }
}
