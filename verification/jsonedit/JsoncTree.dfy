// JSON-with-comments documents as trees that keep every byte: what mcp/jsonedit.go is meant to edit.
// A body is a list of pieces, so trailing commas and comments stand wherever they like. The one thing
// the scanners cannot read is a comment between a scalar member and its separator: a document is
// readable along a path when no scalar passed on the way is followed by one.

module JsoncTree {
  import opened ByteSeqs
  import opened JsonGrammar
  import opened JsoncScan
  import opened Options

  datatype Gap = Blank(b: byte) | LineComment(text: Bytes) | BlockComment(text: Bytes)

  datatype Value = Scalar(text: Bytes) | Quoted(chars: Bytes) | Braces(body: Body) | Brackets(body: Body)

  datatype Piece =
    | Space(gap: Gap)
    | Separator
    | Field(key: Bytes, before: seq<Gap>, after: seq<Gap>, value: Value)
    | Entry(value: Value)

  datatype Body = End | Next(piece: Piece, rest: Body)

  // Nothing is asked of what follows the root object.
  datatype Doc = Doc(before: seq<Gap>, body: Body, after: Bytes)

  // ---------------------------------------------------------------- text

  const LINE_MARK: Bytes := [SLASH, SLASH]
  const BLOCK_OPEN: Bytes := [SLASH, STAR]
  const BLOCK_CLOSE: Bytes := [STAR, SLASH]

  function GapText(g: Gap): Bytes {
    match g
    case Blank(b) => [b]
    case LineComment(text) => LINE_MARK + text + [LF]
    case BlockComment(text) => BLOCK_OPEN + (text + BLOCK_CLOSE)
  }

  function GapsText(gs: seq<Gap>): Bytes {
    if gs == [] then [] else GapText(gs[0]) + GapsText(gs[1..])
  }

  function ValueText(v: Value): Bytes {
    match v
    case Scalar(text) => text
    case Quoted(chars) => KeyText(chars)
    case Braces(body) => [LBRACE] + BodyText(body) + [RBRACE]
    case Brackets(body) => [LBRACKET] + BodyText(body) + [RBRACKET]
  }

  // Everything of a member up to its value.
  function HeadText(key: Bytes, before: seq<Gap>, after: seq<Gap>): Bytes {
    KeyText(key) + (GapsText(before) + ([COLON] + GapsText(after)))
  }

  function PieceText(p: Piece): Bytes {
    match p
    case Space(gap) => GapText(gap)
    case Separator => [COMMA]
    case Field(key, before, after, value) => HeadText(key, before, after) + ValueText(value)
    case Entry(value) => ValueText(value)
  }

  function BodyText(b: Body): Bytes {
    match b
    case End => []
    case Next(piece, rest) => PieceText(piece) + BodyText(rest)
  }

  function DocText(d: Doc): Bytes {
    GapsText(d.before) + (ValueText(Braces(d.body)) + d.after)
  }

  // ---------------------------------------------------------------- well-formed documents

  // The bytes scalars are made of: none that opens or ends anything else.
  predicate IsPlain(b: byte) {
    !IsSpace(b) && b != COMMA && b != QUOTE && b != SLASH
    && b != LBRACE && b != RBRACE && b != LBRACKET && b != RBRACKET
  }

  // A string body that only its closing quote ends.
  predicate CharsOk(chars: Bytes) {
    QuoteEnd(chars + [QUOTE], 0) == Some(|chars| + 1)
  }

  predicate GapOk(g: Gap) {
    match g
    case Blank(b) => IsSpace(b)
    case LineComment(text) => LF !in text
    case BlockComment(text) => CommentClose(text + BLOCK_CLOSE, 0) == Some(|text|)
  }

  predicate GapsOk(gs: seq<Gap>) {
    forall g <- gs :: GapOk(g)
  }

  predicate ValueOk(v: Value) {
    match v
    case Scalar(text) => text != [] && forall b <- text :: IsPlain(b)
    case Quoted(chars) => CharsOk(chars)
    case Braces(body) => BodyOk(body, true)
    case Brackets(body) => BodyOk(body, false)
  }

  predicate PieceOk(p: Piece, inObject: bool) {
    match p
    case Space(gap) => GapOk(gap)
    case Separator => true
    case Field(key, before, after, value) =>
      inObject && CharsOk(key) && GapsOk(before) && GapsOk(after) && ValueOk(value)
    case Entry(value) => !inObject && ValueOk(value)
  }

  predicate BodyOk(b: Body, inObject: bool) {
    match b
    case End => true
    case Next(piece, rest) => PieceOk(piece, inObject) && BodyOk(rest, inObject)
  }

  predicate DocOk(d: Doc) {
    GapsOk(d.before) && BodyOk(d.body, true)
  }

  // ---------------------------------------------------------------- members

  // The blanks a body starts with, which a scalar's span takes in.
  function BlankRun(b: Body): nat {
    if b.Next? && b.piece.Space? && b.piece.gap.Blank? then 1 + BlankRun(b.rest) else 0
  }

  predicate IsField(p: Piece, name: Bytes) {
    p.Field? && p.key == name
  }

  // The value of the first member with a name.
  function Lookup(b: Body, name: Bytes): Option<Value> {
    match b
    case End => None
    case Next(piece, rest) => if IsField(piece, name) then Some(piece.value) else Lookup(rest, name)
  }

  // Where the member found by Lookup stands, when the body starts at position i.
  function Locate(b: Body, i: nat, name: Bytes): (r: Option<Span>)
    ensures r.Some? <==> Lookup(b, name).Some?
  {
    match b
    case End => None
    case Next(piece, rest) =>
      if IsField(piece, name) then
        var start := i + |HeadText(piece.key, piece.before, piece.after)|;
        var end := start + |ValueText(piece.value)| + if piece.value.Scalar? then BlankRun(rest) else 0;
        Some(Span(i, start, end))
      else Locate(rest, i + |PieceText(piece)|, name)
  }

  // What follows the first member with a name.
  function After(b: Body, name: Bytes): Body
    requires Lookup(b, name).Some?
  {
    if IsField(b.piece, name) then b.rest else After(b.rest, name)
  }

  // ---------------------------------------------------------------- readable bodies

  // Only blanks up to the next separator, or to the end.
  predicate ScalarEnds(b: Body) {
    b.End? || b.piece.Separator? || (b.piece.Space? && b.piece.gap.Blank? && ScalarEnds(b.rest))
  }

  predicate HeadEnds(b: Body) {
    b.Next? && b.piece.Field? && b.piece.value.Scalar? ==> ScalarEnds(b.rest)
  }

  predicate EveryScalarEnds(b: Body) {
    b.Next? ==> HeadEnds(b) && EveryScalarEnds(b.rest)
  }

  // Every scalar up to the first member with the name, that member included, ends.
  predicate ReadsTo(b: Body, name: Bytes) {
    b.Next? ==> HeadEnds(b) && (IsField(b.piece, name) || ReadsTo(b.rest, name))
  }

  // The first member with the name is a scalar that does not end, behind scalars that all do.
  predicate MisreadAt(b: Body, name: Bytes) {
    b.Next? && if IsField(b.piece, name) then !HeadEnds(b) else HeadEnds(b) && MisreadAt(b.rest, name)
  }

  // Every object on the way along a path can be read as far as the path needs it.
  predicate Readable(b: Body, path: seq<Bytes>)
    decreases |path|
  {
    path != [] ==>
      ReadsTo(b, path[0])
      && match Lookup(b, path[0])
         case Some(Braces(sub)) => Readable(sub, path[1..])
         case _ => true
  }

  predicate DistinctKeys(b: Body) {
    b.Next? ==> DistinctKeys(b.rest) && (b.piece.Field? ==> Lookup(b.rest, b.piece.key).None?)
  }
}
