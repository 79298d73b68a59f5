// How an insert looks: which documents count as blank, the indentation it takes over, and every byte it
// writes.

module JsoncLayout {
  import opened ByteSeqs
  import opened JsonGrammar
  import opened JsoncEdit
  import opened JsoncInsertion
  import opened JsoncPaths
  import opened JsoncScan
  import opened Options
  import opened Results

  // ---------------------------------------------------------------- blank documents

  // The characters unicode.IsSpace holds for, in UTF-8.
  const WHITE_SPACE: set<Bytes> := {
    [0x09], [0x0A], [0x0B], [0x0C], [0x0D], [0x20], [0xC2, 0x85], [0xC2, 0xA0], [0xE1, 0x9A, 0x80],
    [0xE2, 0x80, 0x80], [0xE2, 0x80, 0x81], [0xE2, 0x80, 0x82], [0xE2, 0x80, 0x83], [0xE2, 0x80, 0x84],
    [0xE2, 0x80, 0x85], [0xE2, 0x80, 0x86], [0xE2, 0x80, 0x87], [0xE2, 0x80, 0x88], [0xE2, 0x80, 0x89],
    [0xE2, 0x80, 0x8A], [0xE2, 0x80, 0xA8], [0xE2, 0x80, 0xA9], [0xE2, 0x80, 0xAF], [0xE2, 0x81, 0x9F],
    [0xE3, 0x80, 0x80]
  }

  function Flatten(parts: seq<Bytes>): Bytes {
    if parts == [] then [] else parts[0] + Flatten(parts[1..])
  }

  ghost predicate OfWhiteSpace(raw: Bytes) {
    exists parts: seq<Bytes> :: raw == Flatten(parts) && forall p <- parts :: p in WHITE_SPACE
  }

  lemma SpaceInFront(raw: Bytes, n: nat)
    requires n <= |raw| && raw[..n] in WHITE_SPACE
    ensures WhiteSpace(raw) == n > 0
  {
    var p := raw[..n];
    assert |p| >= 1 && raw[0] == p[0];
    if n >= 2 {
      assert raw[1] == p[1] && raw[..2] == p[..2];
    }
    if n >= 3 {
      assert raw[2] == p[2] && raw[..3] == p;
    }
  }

  lemma SpaceFound(raw: Bytes)
    requires WhiteSpace(raw) > 0
    ensures raw[..WhiteSpace(raw)] in WHITE_SPACE
  {
    var n := WhiteSpace(raw);
    var p := raw[..n];
    assert n == 1 ==> p == [raw[0]];
    assert n == 2 ==> p == [raw[0], raw[1]];
    assert n == 3 ==> p == [raw[0], raw[1], raw[2]] && raw[..2][0] == raw[0] && raw[..2][1] == raw[1];
    assert n == 3 ==> raw[..3][0] == raw[0] && raw[..3][1] == raw[1] && raw[..3][2] == raw[2];
  }

  lemma {:induction false} BlankParts(raw: Bytes) returns (parts: seq<Bytes>)
    requires IsBlank(raw)
    ensures raw == Flatten(parts) && forall p <- parts :: p in WHITE_SPACE
    decreases |raw|
  {
    hide WHITE_SPACE, WhiteSpace;
    if raw == [] {
      parts := [];
    } else {
      var n := WhiteSpace(raw);
      SpaceFound(raw);
      var rest := BlankParts(raw[n..]);
      parts := [raw[..n]] + rest;
      assert parts[1..] == rest && raw == raw[..n] + raw[n..];
    }
  }

  lemma {:induction false} PartsAreBlank(parts: seq<Bytes>)
    requires forall p <- parts :: p in WHITE_SPACE
    ensures IsBlank(Flatten(parts))
  {
    hide WHITE_SPACE, WhiteSpace;
    if parts != [] {
      var raw, n := Flatten(parts), |parts[0]|;
      PartsAreBlank(parts[1..]);
      assert raw[..n] == parts[0] && raw[n..] == Flatten(parts[1..]);
      SpaceInFront(raw, n);
    }
  }

  // A document is blank, and edited as an empty object on a line of its own, if and only if it holds nothing
  // but white space.
  lemma BlankIsWhiteSpace(raw: Bytes)
    ensures OrEmptyObject(raw) == if OfWhiteSpace(raw) then [0x7B, 0x7D, 0x0A] else raw
  {
    hide WHITE_SPACE, WhiteSpace;
    if IsBlank(raw) {
      var parts := BlankParts(raw);
    } else if OfWhiteSpace(raw) {
      var parts: seq<Bytes> :| raw == Flatten(parts) && forall p <- parts :: p in WHITE_SPACE;
      PartsAreBlank(parts);
    }
  }

  // ---------------------------------------------------------------- indentation

  // All the spaces and tabs at the start of the line that position `at` is on, as far as it.
  ghost predicate IsLineIndent(raw: Bytes, at: nat, indent: Bytes) {
    exists start: nat | start + |indent| <= at <= |raw| && raw[start..start + |indent|] == indent ::
      && (start == 0 || raw[start - 1] == 0x0A) && 0x0A !in raw[start..at]
      && (forall b <- indent :: b in {0x20, 0x09})
      && (start + |indent| < at ==> raw[start + |indent|] !in {0x20, 0x09})
  }

  lemma {:induction false} LineStarts(raw: Bytes, i: nat)
    requires i <= |raw|
    ensures var s := LineStart(raw, i); (s == 0 || raw[s - 1] == 0x0A) && 0x0A !in raw[s..i]
  {
    if i > 0 && raw[i - 1] != LF {
      LineStarts(raw, i - 1);
      var s := LineStart(raw, i);
      assert raw[s..i] == raw[s..i - 1] + [raw[i - 1]];
    }
  }

  lemma {:induction false} IndentEnds(raw: Bytes, i: nat, end: nat)
    requires i <= end <= |raw|
    ensures var r := IndentEnd(raw, i, end); r < end ==> raw[r] !in {0x20, 0x09}
    decreases end - i
  {
    if i < end && IsIndent(raw[i]) {
      IndentEnds(raw, i + 1, end);
    }
  }

  lemma BraceIndentIsTheLines(raw: Bytes, brace: nat)
    requires brace <= |raw|
    ensures IsLineIndent(raw, brace, BraceIndent(raw, brace))
  {
    var start := LineStart(raw, brace);
    LineStarts(raw, brace);
    IndentEnds(raw, start, brace);
    var indent := BraceIndent(raw, brace);
    assert raw[start..start + |indent|] == indent;
  }

  // ---------------------------------------------------------------- the bytes that are written

  // Single-key objects around the value, one key a line, each level two spaces deeper.
  function MapsText(keys: seq<Bytes>, encode: Encoder, prefix: Bytes): Bytes {
    if keys == [] then encode(prefix)
    else
      [0x7B, 0x0A] + (prefix + [0x20, 0x20, 0x22] + keys[0] + [0x22, 0x3A, 0x20])
      + MapsText(keys[1..], encode, prefix + [0x20, 0x20]) + [0x0A] + prefix + [0x7D]
  }

  lemma {:induction false} ChainIsMaps(keys: seq<Bytes>, encode: Encoder, prefix: Bytes)
    ensures NestedText(Chain(keys), encode, prefix) == MapsText(keys, encode, prefix)
    decreases |keys|
  {
    if keys != [] {
      ChainIsMaps(keys[1..], encode, prefix + STEP);
      MapAssembles(keys[0], prefix, MapsText(keys[1..], encode, prefix + STEP));
    }
  }

  lemma MapAssembles(key: Bytes, prefix: Bytes, inner: Bytes)
    ensures [LBRACE, LF] + prefix + STEP + KeyText(key) + COLON_SPACE + inner + [LF] + prefix + [RBRACE] ==
            [0x7B, 0x0A] + (prefix + [0x20, 0x20, 0x22] + key + [0x22, 0x3A, 0x20]) + inner + [0x0A] + prefix + [0x7D]
  {
  }

  // A member put behind the brace stands on a line of its own, two spaces deeper than the line of the
  // brace, and is followed by a comma, or, in an object that holds nothing, by a line break and the
  // indentation of the closing brace.
  function LineText(indent: Bytes, name: Bytes, value: Bytes, closes: bool): Bytes {
    [0x0A] + indent + [0x20, 0x20, 0x22] + name + [0x22, 0x3A, 0x20] + value
    + if closes then [0x0A] + indent else [0x2C]
  }

  lemma BlockIsLine(raw: Bytes, brace: nat, name: Bytes, keys: seq<Bytes>, encode: Encoder)
    requires brace < |raw|
    ensures var indent := BraceIndent(raw, brace);
            MemberBlock(raw, brace, name, Chain(keys), encode) ==
            LineText(indent, name, MapsText(keys, encode, indent + [0x20, 0x20]), ClosesAtOnce(raw, brace))
  {
    var indent := BraceIndent(raw, brace);
    ChainIsMaps(keys, encode, indent + STEP);
    hide BraceIndent, ClosesAtOnce, NestedText, MapsText;
    LineAssembles(indent, name, MapsText(keys, encode, indent + STEP), ClosesAtOnce(raw, brace));
  }

  lemma LineAssembles(indent: Bytes, name: Bytes, value: Bytes, closes: bool)
    ensures [LF] + (indent + STEP) + KeyText(name) + COLON_SPACE + value
            + (if closes then [LF] + indent else [COMMA]) == LineText(indent, name, value, closes)
  {
  }

  // Whatever the document, every byte an insert writes, and where.
  lemma InsertWrites(given: Bytes, path: seq<Bytes>, name: Bytes, encode: Encoder, key: KeyEncoder)
    requires Insert(given, path, name, encode, key).Ok?
    ensures var raw, edited := OrEmptyObject(given), Insert(given, path, name, encode, key).value;
            && Resolve(raw, path).Ok?
            && var place := Resolve(raw, path).value;
            exists indent: Bytes | IsLineIndent(raw, place.brace, indent) ::
              match FindAt(raw, path, name)
              case Some(span) =>
                && span.valueStart <= span.valueEnd <= |raw|
                && edited == raw[..span.valueStart] + encode(indent + [0x20, 0x20]) + raw[span.valueEnd..]
              case None =>
                && place.depth <= |path|
                && var first := if place.depth < |path| then path[place.depth] else name;
                var keys := if place.depth < |path| then EncodedKeys(path[place.depth + 1..] + [name], key) else [];
                var value := MapsText(keys, encode, indent + [0x20, 0x20]);
                edited == raw[..place.brace + 1]
                          + LineText(indent, first, value, ClosesAtOnce(raw, place.brace))
                          + raw[place.brace + 1..]
  {
    var raw := OrEmptyObject(given);
    hide Resolve, Find, MemberBlock, BraceIndent, OrEmptyObject, IsLineIndent, ClosesAtOnce, MapsText, LineText, Chain;
    hide EncodedKeys;
    var place := Resolve(raw, path).value;
    BraceIndentIsTheLines(raw, place.brace);
    assert IsLineIndent(raw, place.brace, BraceIndent(raw, place.brace));
    if place.depth < |path| {
      BlockIsLine(raw, place.brace, path[place.depth], EncodedKeys(path[place.depth + 1..] + [name], key), encode);
    } else {
      NoKeys();
      BlockIsLine(raw, place.brace, name, [], encode);
    }
  }

  lemma NoKeys()
    ensures Chain([]) == Given
  {
  }
}
