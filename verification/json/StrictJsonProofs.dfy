// The parser accepts exactly the documents of the grammar. Soundness builds the tree of what was
// accepted; completeness runs the parser over the text of a tree.

module StrictJsonProofs {
  import opened ByteSeqs
  import opened JsonGrammar
  import opened Options
  import opened StrictParser

  // ---------------------------------------------------------------- text at a position

  lemma AtByte(d: Bytes, pos: nat, b: byte)
    ensures At(d, pos, [b]) <==> pos < |d| && d[pos] == b
  {
  }

  lemma AtFirst(d: Bytes, pos: nat, text: Bytes)
    requires At(d, pos, text) && |text| > 0
    ensures pos < |d| && d[pos] == text[0] && At(d, pos + 1, text[1..])
  {
  }

  lemma AtSlice(d: Bytes, i: nat, j: nat)
    requires i <= j <= |d|
    ensures At(d, i, d[i..j])
  {
  }

  // What a value can be followed by: nothing, space or punctuation.
  ghost predicate Stops(d: Bytes, pos: nat) {
    pos <= |d| && (pos < |d| ==> IsSpace(d[pos]) || d[pos] == COMMA || d[pos] == RBRACKET || d[pos] == RBRACE)
  }

  lemma {:induction false} SpaceSound(d: Bytes, pos: nat)
    requires pos <= |d|
    ensures var end := SpaceEnd(d, pos);
            && AllSpace(d[pos..end]) && At(d, pos, d[pos..end]) && (end < |d| ==> !IsSpace(d[end]))
            && SpaceEnd(d, end) == end
    decreases |d| - pos
  {
    if pos < |d| && IsSpace(d[pos]) {
      var end := SpaceEnd(d, pos + 1);
      SpaceSound(d, pos + 1);
      assert d[pos..end] == [d[pos]] + d[pos + 1..end];
    }
  }

  lemma {:induction false} SpaceComplete(d: Bytes, pos: nat, space: Bytes)
    requires AllSpace(space) && At(d, pos, space)
    requires pos + |space| < |d| ==> !IsSpace(d[pos + |space|])
    ensures SpaceEnd(d, pos) == pos + |space|
    decreases |space|
  {
    if space != [] {
      AtFirst(d, pos, space);
      SpaceComplete(d, pos + 1, space[1..]);
    }
  }

  lemma {:induction false} DigitsSound(d: Bytes, pos: nat)
    requires pos <= |d|
    ensures AllDigits(d[pos..DigitsEnd(d, pos)]) && At(d, pos, d[pos..DigitsEnd(d, pos)])
    decreases |d| - pos
  {
    if pos < |d| && IsDigit(d[pos]) {
      DigitsSound(d, pos + 1);
      assert d[pos..DigitsEnd(d, pos)] == [d[pos]] + d[pos + 1..DigitsEnd(d, pos)];
    }
  }

  lemma {:induction false} DigitsComplete(d: Bytes, pos: nat, digits: Bytes)
    requires AllDigits(digits) && At(d, pos, digits)
    requires pos + |digits| < |d| ==> !IsDigit(d[pos + |digits|])
    ensures DigitsEnd(d, pos) == pos + |digits|
    decreases |digits|
  {
    if digits != [] {
      AtFirst(d, pos, digits);
      DigitsComplete(d, pos + 1, digits[1..]);
    }
  }

  // ---------------------------------------------------------------- strings

  function EscapeItem(d: Bytes, pos: nat): Item
    requires pos < |d| && EscapeEnd(d, pos).Some?
  {
    if IsShortEscape(d[pos + 1]) then Short(d[pos + 1])
    else if EscapeEnd(d, pos).value == pos + 6 then Unicode(d[pos + 2..pos + 6])
    else Pair(d[pos + 2..pos + 6], d[pos + 8..pos + 12])
  }

  // The three shapes of an escape that ends.
  lemma EscapeCases(d: Bytes, pos: nat)
    requires pos < |d| && EscapeEnd(d, pos).Some?
    ensures pos + 1 < |d| && EscapeEnd(d, pos).value <= |d|
    ensures var end := EscapeEnd(d, pos).value;
            if IsShortEscape(d[pos + 1]) then end == pos + 2
            else
              && d[pos + 1] == LOWER_U && pos + 6 <= |d| && IsQuad(d[pos + 2..pos + 6])
              && var first := QuadValue(d[pos + 2..pos + 6]);
              if end == pos + 6 then !IsHighSurrogate(first) && !IsLowSurrogate(first)
              else
                && end == pos + 12 && IsHighSurrogate(first) && d[pos + 6] == BACKSLASH && d[pos + 7] == LOWER_U
                && IsQuad(d[pos + 8..pos + 12]) && IsLowSurrogate(QuadValue(d[pos + 8..pos + 12]))
  {
    hide IsQuad, QuadValue, IsHighSurrogate, IsLowSurrogate, IsShortEscape;
  }

  lemma EscapeItemOk(d: Bytes, pos: nat)
    requires pos < |d| && d[pos] == BACKSLASH && EscapeEnd(d, pos).Some?
    ensures ItemOk(EscapeItem(d, pos))
    ensures EscapeEnd(d, pos).value == pos + |ItemText(EscapeItem(d, pos))|
  {
    hide *;
    EscapeCases(d, pos);
    EscapeItemIs(d, pos);
    if IsShortEscape(d[pos + 1]) {
      ShortOk(d[pos + 1]);
    } else if EscapeEnd(d, pos).value == pos + 6 {
      UnicodeOk(d[pos + 2..pos + 6]);
    } else {
      PairOk(d[pos + 2..pos + 6], d[pos + 8..pos + 12]);
    }
  }

  lemma EscapeItemIs(d: Bytes, pos: nat)
    requires pos + 1 < |d| && EscapeEnd(d, pos).Some?
    ensures EscapeItem(d, pos) ==
            if IsShortEscape(d[pos + 1]) then Short(d[pos + 1])
            else if EscapeEnd(d, pos).value == pos + 6 then Unicode(d[pos + 2..pos + 6])
            else Pair(d[pos + 2..pos + 6], d[pos + 8..pos + 12])
  {
    EscapeCases(d, pos);
    hide EscapeEnd, IsQuad, QuadValue, IsHighSurrogate, IsLowSurrogate, IsShortEscape;
  }

  lemma ShortOk(c: byte)
    requires IsShortEscape(c)
    ensures ItemOk(Short(c)) && |ItemText(Short(c))| == 2
  {
    hide IsShortEscape;
  }

  lemma UnicodeOk(digits: Bytes)
    requires IsQuad(digits) && !IsHighSurrogate(QuadValue(digits)) && !IsLowSurrogate(QuadValue(digits))
    requires |digits| == 4
    ensures ItemOk(Unicode(digits)) && |ItemText(Unicode(digits))| == 6
  {
    hide IsQuad, QuadValue, IsHighSurrogate, IsLowSurrogate;
    assert |[BACKSLASH, LOWER_U] + digits| == 6;
  }

  lemma PairOk(high: Bytes, low: Bytes)
    requires IsQuad(high) && IsQuad(low) && |high| == |low| == 4
    requires IsHighSurrogate(QuadValue(high)) && IsLowSurrogate(QuadValue(low))
    ensures ItemOk(Pair(high, low)) && |ItemText(Pair(high, low))| == 12
  {
    hide IsQuad, QuadValue, IsHighSurrogate, IsLowSurrogate;
    var mark := [BACKSLASH, LOWER_U];
    assert |mark + high| == 6 && |mark + high + mark| == 8 && |mark + high + mark + low| == 12;
  }

  lemma MarkJoins(d: Bytes, pos: nat, c: byte, rest: Bytes)
    ensures At(d, pos, [BACKSLASH, c] + rest) <==>
            pos + 1 < |d| && d[pos] == BACKSLASH && d[pos + 1] == c && At(d, pos + 2, rest)
  {
    var mark := [BACKSLASH, c];
    assert mark == [BACKSLASH] + [c];
    AtConcat(d, pos, mark, rest);
    AtConcat(d, pos, [BACKSLASH], [c]);
    AtByte(d, pos, BACKSLASH);
    AtByte(d, pos + 1, c);
    hide At;
  }

  lemma PairJoins(d: Bytes, pos: nat, high: Bytes, low: Bytes)
    requires |high| == |low| == 4
    ensures At(d, pos, ItemText(Pair(high, low))) <==>
            && pos + 12 <= |d| && d[pos] == BACKSLASH && d[pos + 1] == LOWER_U && At(d, pos + 2, high)
            && d[pos + 6] == BACKSLASH && d[pos + 7] == LOWER_U && At(d, pos + 8, low)
  {
    var head, mark := [BACKSLASH, LOWER_U] + high, [BACKSLASH, LOWER_U];
    MarkJoins(d, pos, LOWER_U, high);
    MarkJoins(d, pos + 6, LOWER_U, low);
    AtConcat(d, pos, head + mark, low);
    AtConcat(d, pos, head, mark);
    AtConcat(d, pos + 6, mark, low);
  }

  lemma EscapeSound(d: Bytes, pos: nat)
    requires pos < |d| && d[pos] == BACKSLASH && EscapeEnd(d, pos).Some?
    ensures At(d, pos, ItemText(EscapeItem(d, pos)))
  {
    EscapeCases(d, pos);
    hide EscapeEnd, IsQuad, QuadValue, IsHighSurrogate, IsLowSurrogate, IsShortEscape;
    if IsShortEscape(d[pos + 1]) {
      AtSlice(d, pos, pos + 2);
      assert d[pos..pos + 2] == [BACKSLASH, d[pos + 1]];
    } else {
      AtSlice(d, pos + 2, pos + 6);
      if EscapeEnd(d, pos).value == pos + 6 {
        MarkJoins(d, pos, LOWER_U, d[pos + 2..pos + 6]);
      } else {
        AtSlice(d, pos + 8, pos + 12);
        PairJoins(d, pos, d[pos + 2..pos + 6], d[pos + 8..pos + 12]);
      }
    }
  }

  lemma {:induction false} StringSound(d: Bytes, pos: nat) returns (items: seq<Item>)
    requires pos <= |d| && StringEnd(d, pos).Some?
    ensures ItemsOk(items) && At(d, pos, ItemsText(items))
    ensures var end := pos + |ItemsText(items)|;
            end < |d| && d[end] == QUOTE && StringEnd(d, pos) == Some(end + 1)
    decreases |d| - pos
  {
    hide At, ItemText, ItemOk, EscapeEnd;
    if d[pos] == QUOTE {
      items := [];
      AtSlice(d, pos, pos);
    } else {
      var item := if d[pos] == BACKSLASH then EscapeItem(d, pos) else Plain(d[pos]);
      if d[pos] == BACKSLASH {
        EscapeItemOk(d, pos);
        EscapeSound(d, pos);
      } else {
        PlainSound(d, pos);
      }
      hide EscapeItem;
      var rest := StringSound(d, pos + |ItemText(item)|);
      items := [item] + rest;
      AtConcat(d, pos, ItemText(item), ItemsText(rest));
    }
  }

  lemma PlainSound(d: Bytes, pos: nat)
    requires pos < |d| && d[pos] != QUOTE && d[pos] != BACKSLASH && d[pos] >= 0x20
    ensures ItemOk(Plain(d[pos])) && |ItemText(Plain(d[pos]))| == 1 && At(d, pos, ItemText(Plain(d[pos])))
  {
  }

  // Completeness of one escape, and of a string body.
  lemma QuadAtText(d: Bytes, pos: nat, digits: Bytes)
    requires At(d, pos, digits) && IsQuad(digits)
    ensures pos <= |d| && QuadAt(d, pos) == Some(QuadValue(digits))
  {
  }

  lemma EscapeComplete(d: Bytes, pos: nat, item: Item)
    requires ItemOk(item) && !item.Plain? && At(d, pos, ItemText(item))
    ensures pos < |d| && d[pos] == BACKSLASH && EscapeEnd(d, pos) == Some(pos + |ItemText(item)|)
  {
    hide At, QuadAt, QuadValue;
    match item
    case Short(c) =>
      assert ItemText(item) == [BACKSLASH, c] + [];
      MarkJoins(d, pos, c, []);
    case Unicode(digits) =>
      MarkJoins(d, pos, LOWER_U, digits);
      QuadAtText(d, pos + 2, digits);
    case Pair(high, low) =>
      PairJoins(d, pos, high, low);
      QuadAtText(d, pos + 2, high);
      QuadAtText(d, pos + 8, low);
  }

  lemma PlainComplete(d: Bytes, pos: nat, item: Item)
    requires item.Plain? && ItemOk(item) && At(d, pos, ItemText(item))
    ensures |ItemText(item)| == 1 && pos < |d| && d[pos] >= 0x20 && d[pos] != QUOTE && d[pos] != BACKSLASH
  {
  }

  lemma {:induction false} StringComplete(d: Bytes, pos: nat, items: seq<Item>)
    requires ItemsOk(items) && At(d, pos, ItemsText(items))
    requires var end := pos + |ItemsText(items)|; end < |d| && d[end] == QUOTE
    ensures StringEnd(d, pos) == Some(pos + |ItemsText(items)| + 1)
    decreases |items|
  {
    hide At, ItemText, ItemOk, EscapeEnd;
    if items != [] {
      var item, rest := items[0], items[1..];
      AtConcat(d, pos, ItemText(item), ItemsText(rest));
      StringComplete(d, pos + |ItemText(item)|, rest);
      if item.Plain? {
        PlainComplete(d, pos, item);
      } else {
        EscapeComplete(d, pos, item);
      }
    }
  }

  // Decoding the spelling of an escape yields the character it denotes.
  lemma UnquoteItem(item: Item, rest: Bytes)
    requires ItemOk(item)
    ensures Unquote(ItemText(item) + rest) == ItemValue(item) + Unquote(rest)
  {
    var body := ItemText(item) + rest;
    match item
    case Plain(b) => assert body[1..] == rest;
    case Short(c) => assert body[2..] == rest;
    case Unicode(digits) =>
      assert body[2..6] == digits && body[6..] == rest;
    case Pair(high, low) =>
      assert body[2..6] == high && body[8..12] == low && body[12..] == rest;
  }

  lemma {:induction false} UnquoteText(items: seq<Item>)
    requires ItemsOk(items)
    ensures Unquote(ItemsText(items)) == ItemsValue(items)
  {
    if items != [] {
      UnquoteText(items[1..]);
      UnquoteItem(items[0], ItemsText(items[1..]));
    }
  }

  // ---------------------------------------------------------------- numbers

  lemma WholeSound(d: Bytes, pos: nat)
    requires pos <= |d| && WholeEnd(d, pos).Some?
    ensures var whole := d[pos..WholeEnd(d, pos).value];
            NumberOk(whole, [], NoExponent) && At(d, pos, whole)
  {
    if d[pos] != ZERO {
      DigitsSound(d, pos + 1);
      assert d[pos..WholeEnd(d, pos).value] == [d[pos]] + d[pos + 1..WholeEnd(d, pos).value];
    }
  }

  lemma FractionSound(d: Bytes, pos: nat) returns (fraction: Bytes)
    requires pos <= |d| && FractionEnd(d, pos).Some?
    ensures AllDigits(fraction) && At(d, pos, FractionText(fraction))
    ensures FractionEnd(d, pos).value == pos + |FractionText(fraction)|
  {
    var end := FractionEnd(d, pos).value;
    if end == pos {
      fraction := [];
    } else {
      fraction := d[pos + 1..end];
      DigitsSound(d, pos + 1);
      AtByte(d, pos, DOT);
      AtConcat(d, pos, [DOT], fraction);
    }
  }

  lemma ExponentSound(d: Bytes, pos: nat) returns (e: Exponent)
    requires pos <= |d| && ExponentEnd(d, pos).Some?
    ensures NumberOk([ZERO], [], e) && At(d, pos, ExponentText(e))
    ensures ExponentEnd(d, pos).value == pos + |ExponentText(e)|
  {
    var end := ExponentEnd(d, pos).value;
    if end == pos {
      e := NoExponent;
    } else {
      var digits := SignEnd(d, pos + 1);
      DigitsSound(d, digits);
      e := Exponent(d[pos], d[pos + 1..digits], d[digits..end]);
      hide At;
      AtByte(d, pos, d[pos]);
      AtSlice(d, pos + 1, digits);
      AtConcat(d, pos, [d[pos]], d[pos + 1..digits]);
      AtConcat(d, pos, [d[pos]] + d[pos + 1..digits], d[digits..end]);
    }
  }

  lemma NumberSound(d: Bytes, pos: nat) returns (v: Json)
    requires pos <= |d| && NumberEnd(d, pos).Some?
    ensures v.Number? && NumberOk(v.whole, v.fraction, v.exponent) && At(d, pos, JsonText(v))
    ensures NumberEnd(d, pos).value == pos + |JsonText(v)|
  {
    hide At;
    var minus := pos < |d| && d[pos] == MINUS;
    var start := if minus then pos + 1 else pos;
    var whole := WholeEnd(d, start).value;
    WholeSound(d, start);
    var fraction := FractionSound(d, whole);
    var exponent := ExponentSound(d, FractionEnd(d, whole).value);
    v := Number(minus, d[start..whole], fraction, exponent);
    NumberJoins(d, pos, v);
    AtSlice(d, pos, start);
    assert d[pos..start] == MinusText(minus);
  }

  lemma NumberJoins(d: Bytes, pos: nat, v: Json)
    requires v.Number?
    ensures |JsonText(v)| == |MinusText(v.minus)| + |v.whole| + |FractionText(v.fraction)| + |ExponentText(v.exponent)|
    ensures var start := pos + |MinusText(v.minus)|;
            var dot := start + |v.whole|;
            At(d, pos, JsonText(v)) <==>
            && At(d, pos, MinusText(v.minus)) && At(d, start, v.whole) && At(d, dot, FractionText(v.fraction))
            && At(d, dot + |FractionText(v.fraction)|, ExponentText(v.exponent))
  {
    hide At;
    var minus, fraction, exponent := MinusText(v.minus), FractionText(v.fraction), ExponentText(v.exponent);
    AtConcat(d, pos, minus, v.whole);
    AtConcat(d, pos, minus + v.whole, fraction);
    AtConcat(d, pos, minus + v.whole + fraction, exponent);
  }

  lemma ExponentComplete(d: Bytes, pos: nat, e: Exponent)
    requires NumberOk([ZERO], [], e) && At(d, pos, ExponentText(e)) && Stops(d, pos + |ExponentText(e)|)
    ensures ExponentEnd(d, pos) == Some(pos + |ExponentText(e)|)
    ensures pos < |d| ==> !IsDigit(d[pos]) && d[pos] != DOT
  {
    hide At;
    if e.Exponent? {
      AtConcat(d, pos, [e.mark] + e.sign, e.digits);
      AtConcat(d, pos, [e.mark], e.sign);
      AtByte(d, pos, e.mark);
      AtFirst(d, pos + 1 + |e.sign|, e.digits);
      if e.sign != [] {
        AtFirst(d, pos + 1, e.sign);
      }
      DigitsComplete(d, pos + 1 + |e.sign|, e.digits);
    }
  }

  lemma FractionComplete(d: Bytes, pos: nat, fraction: Bytes)
    requires AllDigits(fraction) && At(d, pos, FractionText(fraction))
    requires var end := pos + |FractionText(fraction)|; end < |d| ==> !IsDigit(d[end]) && d[end] != DOT
    ensures FractionEnd(d, pos) == Some(pos + |FractionText(fraction)|)
    ensures pos < |d| ==> !IsDigit(d[pos])
  {
    hide At;
    if fraction == [] {
      AtFits(d, pos, []);
    } else {
      AtConcat(d, pos, [DOT], fraction);
      AtByte(d, pos, DOT);
      AtFirst(d, pos + 1, fraction);
      DigitsComplete(d, pos + 1, fraction);
    }
  }

  lemma WholeComplete(d: Bytes, pos: nat, whole: Bytes)
    requires NumberOk(whole, [], NoExponent) && At(d, pos, whole)
    requires pos + |whole| < |d| ==> !IsDigit(d[pos + |whole|])
    ensures WholeEnd(d, pos) == Some(pos + |whole|)
  {
    hide At;
    AtFirst(d, pos, whole);
    if whole[0] != ZERO {
      DigitsComplete(d, pos + 1, whole[1..]);
    }
  }

  lemma NumberComplete(d: Bytes, pos: nat, v: Json)
    requires v.Number? && NumberOk(v.whole, v.fraction, v.exponent)
    requires At(d, pos, JsonText(v)) && Stops(d, pos + |JsonText(v)|)
    ensures NumberEnd(d, pos) == Some(pos + |JsonText(v)|)
  {
    hide At, WholeEnd, FractionEnd, ExponentEnd, JsonText, FractionText, ExponentText;
    NumberJoins(d, pos, v);
    var start := pos + |MinusText(v.minus)|;
    var dot := start + |v.whole|;
    ExponentComplete(d, dot + |FractionText(v.fraction)|, v.exponent);
    FractionComplete(d, dot, v.fraction);
    WholeComplete(d, start, v.whole);
    AtFirst(d, start, v.whole);
    assert IsDigit(v.whole[0]);
    if v.minus {
      AtByte(d, pos, MINUS);
    }
  }

  // ---------------------------------------------------------------- how texts join

  lemma StringJoins(d: Bytes, pos: nat, items: seq<Item>)
    ensures At(d, pos, StringText(items)) <==>
            var end := pos + 1 + |ItemsText(items)|;
            && end < |d| && d[pos] == QUOTE && d[end] == QUOTE && At(d, pos + 1, ItemsText(items))
  {
    hide At;
    AtConcat(d, pos, [QUOTE] + ItemsText(items), [QUOTE]);
    AtConcat(d, pos, [QUOTE], ItemsText(items));
    AtByte(d, pos, QUOTE);
    AtByte(d, pos + 1 + |ItemsText(items)|, QUOTE);
  }

  lemma BracketsJoin(d: Bytes, pos: nat, open: byte, inner: Bytes, close: byte)
    ensures At(d, pos, [open] + inner + [close]) <==>
            var end := pos + 1 + |inner|;
            end < |d| && d[pos] == open && d[end] == close && At(d, pos + 1, inner)
  {
    hide At;
    AtConcat(d, pos, [open] + inner, [close]);
    AtConcat(d, pos, [open], inner);
    AtByte(d, pos, open);
    AtByte(d, pos + 1 + |inner|, close);
  }

  // A value between the text before it and the space after it.
  lemma PaddedJoins(d: Bytes, pos: nat, before: Bytes, v: Json, after: Bytes)
    ensures At(d, pos, before + JsonText(v) + after) <==>
            && At(d, pos, before) && At(d, pos + |before|, JsonText(v))
            && At(d, pos + |before| + |JsonText(v)|, after)
  {
    hide At;
    AtConcat(d, pos, before, JsonText(v));
    AtConcat(d, pos, before + JsonText(v), after);
  }

  lemma CommaJoins(d: Bytes, pos: nat, head: Bytes, rest: Bytes)
    ensures At(d, pos, head + [COMMA] + rest) <==>
            var comma := pos + |head|;
            && At(d, pos, head) && comma < |d| && d[comma] == COMMA && At(d, comma + 1, rest)
  {
    hide At;
    AtConcat(d, pos, head + [COMMA], rest);
    AtConcat(d, pos, head, [COMMA]);
    AtByte(d, pos + |head|, COMMA);
  }

  lemma MemberJoins(d: Bytes, pos: nat, m: Member)
    ensures var start := pos + |m.before|;
            var keyEnd := start + |StringText(m.key)|;
            var colon := keyEnd + |m.beforeColon|;
            At(d, pos, MemberText(m)) <==>
            && At(d, pos, m.before) && At(d, start, StringText(m.key)) && At(d, keyEnd, m.beforeColon)
            && colon < |d| && d[colon] == COLON && At(d, colon + 1, m.afterColon)
  {
    hide At;
    var key := StringText(m.key);
    AtConcat(d, pos, m.before, key);
    AtConcat(d, pos, m.before + key, m.beforeColon);
    AtConcat(d, pos, m.before + key + m.beforeColon, [COLON]);
    AtConcat(d, pos, m.before + key + m.beforeColon + [COLON], m.afterColon);
    AtByte(d, pos + |m.before + key + m.beforeColon|, COLON);
  }

  // ---------------------------------------------------------------- soundness

  // Keys that repeat neither each other nor a key already seen.
  ghost predicate NewKeys(keys: seq<Bytes>, seen: set<Bytes>) {
    Distinct(keys) && forall k <- keys :: k !in seen
  }

  lemma NewKeysCons(key: Bytes, keys: seq<Bytes>, seen: set<Bytes>)
    ensures NewKeys([key] + keys, seen) <==> key !in seen && NewKeys(keys, seen + {key})
    ensures NewKeys([], seen + {key})
  {
    var all := [key] + keys;
    if NewKeys(all, seen) {
      assert all[0] == key;
      assert forall i :: 0 <= i < |keys| ==> keys[i] == all[i + 1];
    }
  }

  lemma {:induction false} ValueSound(d: Bytes, pos: nat, depth: nat) returns (v: Json)
    requires pos <= |d| && ValueEnd(d, pos, depth).Some?
    ensures JsonOk(v, depth) && At(d, SpaceEnd(d, pos), JsonText(v))
    ensures ValueEnd(d, pos, depth).value == SpaceEnd(d, pos) + |JsonText(v)|
    decreases |d| - pos, 2
  {
    hide At, ItemsText, ElementsText, MembersText, StringEnd, NumberEnd;
    var at := SpaceEnd(d, pos);
    if d[at] == LBRACE {
      v := ObjectSound(d, at, depth);
    } else if d[at] == LBRACKET {
      v := ArraySound(d, at, depth);
    } else if d[at] == QUOTE {
      var items := StringSound(d, at + 1);
      v := Text(items);
      StringJoins(d, at, items);
    } else if d[at] == LOWER_T {
      v := True;
      AtSlice(d, at, at + 4);
    } else if d[at] == LOWER_F {
      v := False;
      AtSlice(d, at, at + 5);
    } else if d[at] == LOWER_N {
      v := Null;
      AtSlice(d, at, at + 4);
    } else {
      v := NumberSound(d, at);
    }
  }

  lemma {:induction false} ArraySound(d: Bytes, pos: nat, depth: nat) returns (v: Json)
    requires pos < |d| && d[pos] == LBRACKET && depth <= MAX_DEPTH && ArrayEnd(d, pos, depth + 1).Some?
    ensures JsonOk(v, depth) && At(d, pos, JsonText(v))
    ensures ArrayEnd(d, pos, depth + 1).value == pos + |JsonText(v)|
    decreases |d| - pos, 1
  {
    hide At, ElementsEnd, SpaceEnd;
    var first := SpaceEnd(d, pos + 1);
    SpaceSound(d, pos + 1);
    var es := NoElements(d[pos + 1..first]);
    if !(first < |d| && d[first] == RBRACKET) {
      es := ElementsSound(d, pos + 1, depth + 1);
    }
    v := Array(es);
    BracketsJoin(d, pos, LBRACKET, ElementsText(es), RBRACKET);
  }

  lemma {:induction false} ElementsSound(d: Bytes, pos: nat, depth: nat) returns (es: Elements)
    requires pos <= |d| && ElementsEnd(d, SpaceEnd(d, pos), depth).Some?
    ensures ElementsOk(es, depth) && !es.NoElements? && At(d, pos, ElementsText(es))
    ensures var close := pos + |ElementsText(es)|;
            && close < |d| && d[close] == RBRACKET
            && ElementsEnd(d, SpaceEnd(d, pos), depth) == Some(close + 1)
    decreases |d| - pos, 3
  {
    hide *;
    var start := SpaceEnd(d, pos);
    ElementsStep(d, start, depth);
    ElementFound(d, start, depth);
    var stop := ValueEnd(d, start, depth).value;
    var at := SpaceEnd(d, stop);
    SpaceSound(d, pos);
    SpaceSound(d, stop);
    var v := ValueSound(d, start, depth);
    PaddedJoins(d, pos, d[pos..start], v, d[stop..at]);
    if d[at] == RBRACKET {
      es := LastElement(d[pos..start], v, d[stop..at]);
      OneElement(d[pos..start], v, d[stop..at], depth);
    } else {
      var rest := ElementsSound(d, at + 1, depth);
      es := NextElement(d[pos..start], v, d[stop..at], rest);
      MoreElements(d[pos..start], v, d[stop..at], rest, depth);
      CommaJoins(d, pos, d[pos..start] + JsonText(v) + d[stop..at], ElementsText(rest));
    }
  }

  lemma ElementFound(d: Bytes, start: nat, depth: nat)
    requires start <= |d| && ElementsEnd(d, start, depth).Some?
    ensures ValueEnd(d, start, depth).Some?
    ensures var at := SpaceEnd(d, ValueEnd(d, start, depth).value);
            && start < at + 1 && at < |d| && (d[at] == RBRACKET || d[at] == COMMA)
            && ValueEnd(d, start, depth).value <= at
  {
    hide ValueEnd, SpaceEnd;
  }

  lemma OneElement(before: Bytes, v: Json, after: Bytes, depth: nat)
    requires AllSpace(before) && JsonOk(v, depth) && AllSpace(after)
    ensures ElementsOk(LastElement(before, v, after), depth)
    ensures ElementsText(LastElement(before, v, after)) == before + JsonText(v) + after
  {
    hide JsonOk, JsonText, AllSpace;
  }

  lemma MoreElements(before: Bytes, v: Json, after: Bytes, rest: Elements, depth: nat)
    requires AllSpace(before) && JsonOk(v, depth) && AllSpace(after) && ElementsOk(rest, depth) && !rest.NoElements?
    ensures ElementsOk(NextElement(before, v, after, rest), depth)
    ensures ElementsText(NextElement(before, v, after, rest)) ==
            before + JsonText(v) + after + [COMMA] + ElementsText(rest)
  {
    hide JsonOk, JsonText, AllSpace;
  }

  lemma {:induction false} ObjectSound(d: Bytes, pos: nat, depth: nat) returns (v: Json)
    requires pos < |d| && d[pos] == LBRACE && depth <= MAX_DEPTH && ObjectEnd(d, pos, depth + 1).Some?
    ensures JsonOk(v, depth) && At(d, pos, JsonText(v))
    ensures ObjectEnd(d, pos, depth + 1).value == pos + |JsonText(v)|
    decreases |d| - pos, 1
  {
    hide *;
    ObjectStarts(d, pos, depth + 1);
    var first := SpaceEnd(d, pos + 1);
    SpaceSound(d, pos + 1);
    var ms := NoMembers(d[pos + 1..first]);
    NoMembersIs(d[pos + 1..first], depth + 1);
    if !(first < |d| && d[first] == RBRACE) {
      ms := MembersSound(d, pos + 1, depth + 1, {});
      NewKeysAreDistinct(Keys(ms));
    }
    v := Object(ms);
    ObjectIs(ms, depth);
    BracketsJoin(d, pos, LBRACE, MembersText(ms), RBRACE);
  }

  lemma NoMembersIs(space: Bytes, depth: nat)
    requires AllSpace(space)
    ensures var ms := NoMembers(space); MembersText(ms) == space && MembersOk(ms, depth) && Distinct(Keys(ms))
  {
  }

  lemma NewKeysAreDistinct(keys: seq<Bytes>)
    requires NewKeys(keys, {})
    ensures Distinct(keys)
  {
  }

  lemma ObjectIs(ms: Members, depth: nat)
    ensures JsonText(Object(ms)) == [LBRACE] + MembersText(ms) + [RBRACE]
    ensures JsonOk(Object(ms), depth) <==>
              depth <= MAX_DEPTH && MembersOk(ms, depth + 1) && Distinct(Keys(ms))
  {
    hide MembersText, MembersOk, Keys, Distinct;
  }

  lemma MemberHeadSound(d: Bytes, pos: nat, colon: nat) returns (m: Member)
    requires pos <= |d|
    requires var start := SpaceEnd(d, pos);
             && start < |d| && d[start] == QUOTE && StringEnd(d, start + 1).Some?
             && colon == SpaceEnd(d, StringEnd(d, start + 1).value) && colon < |d| && d[colon] == COLON
    ensures MemberOk(m) && At(d, pos, MemberText(m))
    ensures pos + |MemberText(m)| == SpaceEnd(d, colon + 1)
    ensures var start := SpaceEnd(d, pos);
            KeyValue(m) == Unquote(d[start + 1..StringEnd(d, start + 1).value - 1])
  {
    hide At, ItemsText, StringEnd, SpaceEnd, Unquote;
    var start := SpaceEnd(d, pos);
    var keyEnd := StringEnd(d, start + 1).value;
    SpaceSound(d, pos);
    SpaceSound(d, keyEnd);
    SpaceSound(d, colon + 1);
    var items := StringSound(d, start + 1);
    m := Member(d[pos..start], items, d[keyEnd..colon], d[colon + 1..SpaceEnd(d, colon + 1)]);
    StringJoins(d, start, items);
    MemberJoins(d, pos, m);
    UnquoteText(items);
    AtIsSlice(d, start + 1, ItemsText(items));
  }

  lemma AtIsSlice(d: Bytes, pos: nat, text: Bytes)
    requires At(d, pos, text)
    ensures pos + |text| <= |d| && d[pos..pos + |text|] == text
  {
  }

  lemma {:induction false} MembersSound(d: Bytes, pos: nat, depth: nat, seen: set<Bytes>) returns (ms: Members)
    requires pos <= |d| && MembersEnd(d, SpaceEnd(d, pos), depth, seen).Some?
    ensures MembersOk(ms, depth) && !ms.NoMembers? && NewKeys(Keys(ms), seen) && At(d, pos, MembersText(ms))
    ensures var close := pos + |MembersText(ms)|;
            && close < |d| && d[close] == RBRACE
            && MembersEnd(d, SpaceEnd(d, pos), depth, seen) == Some(close + 1)
    decreases |d| - pos, 4
  {
    hide At, JsonText, JsonOk, ValueEnd, SpaceEnd, StringEnd, MembersEnd;
    hide MemberText, MemberOk, KeyValue, NewKeys, Unquote;
    var start := SpaceEnd(d, pos);
    MembersStep(d, start, depth, seen);
    var read := MemberEnd(d, start, depth, seen).value;
    var colon := SpaceEnd(d, StringEnd(d, start + 1).value);
    var at := SpaceEnd(d, read.end);
    SpaceSound(d, read.end);
    var m := MemberHeadSound(d, pos, colon);
    var v := ValueSound(d, colon + 1, depth);
    PaddedJoins(d, pos, MemberText(m), v, d[read.end..at]);
    var head := MemberText(m) + JsonText(v) + d[read.end..at];
    assert read.key == KeyValue(m);
    if d[at] == RBRACE {
      ms := LastMember(m, v, d[read.end..at]);
      NewKeysCons(read.key, [], seen);
      assert Keys(ms) == [read.key] + [];
    } else {
      var rest := MembersSound(d, at + 1, depth, seen + {read.key});
      ms := NextMember(m, v, d[read.end..at], rest);
      NewKeysCons(read.key, Keys(rest), seen);
      CommaJoins(d, pos, head, MembersText(rest));
      assert Keys(ms) == [read.key] + Keys(rest);
    }
  }

  // ---------------------------------------------------------------- completeness

  lemma NumberTextStarts(v: Json)
    requires v.Number? && NumberOk(v.whole, v.fraction, v.exponent)
    ensures |JsonText(v)| > 0 && (IsDigit(JsonText(v)[0]) || JsonText(v)[0] == MINUS)
  {
    var head := MinusText(v.minus) + v.whole;
    assert head[0] == (if v.minus then MINUS else v.whole[0]);
    assert (head + FractionText(v.fraction))[0] == head[0];
  }

  lemma JsonTextStarts(v: Json, depth: nat)
    requires JsonOk(v, depth)
    ensures |JsonText(v)| > 0 && !IsSpace(JsonText(v)[0])
    ensures var c := JsonText(v)[0];
            && c != RBRACKET && c != RBRACE
            && (c == LBRACE <==> v.Object?) && (c == LBRACKET <==> v.Array?) && (c == QUOTE <==> v.Text?)
            && (c == LOWER_T <==> v.True?) && (c == LOWER_F <==> v.False?) && (c == LOWER_N <==> v.Null?)
  {
    if v.Number? {
      NumberTextStarts(v);
    }
  }

  // What the parser does with a value is decided by its first byte.
  lemma ValueEndBy(d: Bytes, pos: nat, depth: nat)
    requires pos < |d| && !IsSpace(d[pos]) && depth <= MAX_DEPTH
    ensures SpaceEnd(d, pos) == pos
    ensures d[pos] == QUOTE ==> ValueEnd(d, pos, depth) == StringEnd(d, pos + 1)
    ensures d[pos] == LBRACE ==> ValueEnd(d, pos, depth) == ObjectEnd(d, pos, depth + 1)
    ensures d[pos] == LBRACKET ==> ValueEnd(d, pos, depth) == ArrayEnd(d, pos, depth + 1)
  {
    hide StringEnd, ObjectEnd, ArrayEnd, LiteralEnd, NumberEnd;
  }

  lemma TextComplete(d: Bytes, pos: nat, depth: nat, v: Json)
    requires v.Text? && JsonOk(v, depth) && At(d, pos, JsonText(v))
    ensures pos < |d| && d[pos] == QUOTE && StringEnd(d, pos + 1) == Some(pos + |JsonText(v)|)
  {
    hide At, StringEnd, ItemsText;
    StringJoins(d, pos, v.items);
    StringComplete(d, pos + 1, v.items);
  }

  lemma ScalarComplete(d: Bytes, pos: nat, depth: nat, v: Json)
    requires !v.Text? && !v.Array? && !v.Object? && JsonOk(v, depth)
    requires At(d, pos, JsonText(v)) && Stops(d, pos + |JsonText(v)|)
    ensures ValueEnd(d, pos, depth) == Some(pos + |JsonText(v)|)
  {
    hide At, StringEnd, NumberEnd, ObjectEnd, ArrayEnd;
    JsonTextStarts(v, depth);
    AtFirst(d, pos, JsonText(v));
    AtIsSlice(d, pos, JsonText(v));
    if v.Number? {
      NumberComplete(d, pos, v);
    }
  }

  lemma {:induction false} ArrayComplete(d: Bytes, pos: nat, depth: nat, v: Json)
    requires v.Array? && JsonOk(v, depth) && At(d, pos, JsonText(v))
    ensures pos < |d| && d[pos] == LBRACKET && ArrayEnd(d, pos, depth + 1) == Some(pos + |JsonText(v)|)
    decreases v, 0
  {
    hide At, ElementsText, ElementsEnd, ElementsOk, SpaceEnd;
    BracketsJoin(d, pos, LBRACKET, ElementsText(v.elements), RBRACKET);
    ElementsComplete(d, pos + 1, depth + 1, v.elements);
  }

  lemma {:induction false} ObjectComplete(d: Bytes, pos: nat, depth: nat, v: Json)
    requires v.Object? && JsonOk(v, depth) && At(d, pos, JsonText(v))
    ensures pos < |d| && d[pos] == LBRACE && ObjectEnd(d, pos, depth + 1) == Some(pos + |JsonText(v)|)
    decreases v, 0
  {
    hide At, MembersText, MembersEnd, MembersOk, SpaceEnd;
    BracketsJoin(d, pos, LBRACE, MembersText(v.members), RBRACE);
    MembersComplete(d, pos + 1, depth + 1, v.members, {});
  }

  lemma JsonDepth(v: Json, depth: nat)
    requires JsonOk(v, depth)
    ensures depth <= MAX_DEPTH
  {
  }

  lemma {:induction false} ValueComplete(d: Bytes, pos: nat, depth: nat, v: Json)
    requires JsonOk(v, depth) && At(d, pos, JsonText(v)) && Stops(d, pos + |JsonText(v)|)
    ensures SpaceEnd(d, pos) == pos && ValueEnd(d, pos, depth) == Some(pos + |JsonText(v)|)
    decreases v, 1
  {
    hide *;
    JsonDepth(v, depth);
    JsonTextStarts(v, depth);
    AtFirst(d, pos, JsonText(v));
    ValueEndBy(d, pos, depth);
    match v
    case Text(_) => TextComplete(d, pos, depth, v);
    case Array(_) => ArrayComplete(d, pos, depth, v);
    case Object(_) => ObjectComplete(d, pos, depth, v);
    case _ => ScalarComplete(d, pos, depth, v);
  }

  lemma {:induction false} PaddedComplete(d: Bytes, pos: nat, depth: nat, before: Bytes, v: Json, after: Bytes)
    requires AllSpace(before) && JsonOk(v, depth) && AllSpace(after)
    requires At(d, pos, before) && At(d, pos + |before|, JsonText(v))
    requires At(d, pos + |before| + |JsonText(v)|, after)
    requires Stops(d, pos + |before| + |JsonText(v)| + |after|)
    requires var stop := pos + |before| + |JsonText(v)| + |after|; stop < |d| ==> !IsSpace(d[stop])
    ensures var start := pos + |before|;
            var end := start + |JsonText(v)|;
            && SpaceEnd(d, pos) == start && start < |d| && d[start] == JsonText(v)[0]
            && ValueEnd(d, start, depth) == ValueEnd(d, pos, depth) == Some(end)
            && SpaceEnd(d, end) == end + |after|
    decreases v, 2
  {
    hide At, JsonText, JsonOk, ValueEnd, SpaceEnd;
    var start := pos + |before|;
    var end := start + |JsonText(v)|;
    if after != [] {
      AtFirst(d, end, after);
    }
    JsonTextStarts(v, depth);
    AtFirst(d, start, JsonText(v));
    SpaceComplete(d, pos, before);
    SpaceComplete(d, end, after);
    ValueComplete(d, start, depth, v);
    ValueBehindSpace(d, pos, depth);
  }

  lemma ValueBehindSpace(d: Bytes, pos: nat, depth: nat)
    requires pos <= |d| && SpaceEnd(d, SpaceEnd(d, pos)) == SpaceEnd(d, pos)
    ensures ValueEnd(d, SpaceEnd(d, pos), depth) == ValueEnd(d, pos, depth)
  {
    hide SpaceEnd, ObjectEnd, ArrayEnd, StringEnd, LiteralEnd, NumberEnd;
  }

  lemma {:induction false} ElementComplete(d: Bytes, pos: nat, depth: nat, before: Bytes, v: Json, after: Bytes)
    requires AllSpace(before) && JsonOk(v, depth) && AllSpace(after)
    requires At(d, pos, before + JsonText(v) + after)
    requires var stop := pos + |before + JsonText(v) + after|; Stops(d, stop) && (stop < |d| ==> !IsSpace(d[stop]))
    ensures var first := SpaceEnd(d, pos);
            && first < |d| && d[first] != RBRACKET
            && ValueEnd(d, first, depth).Some?
            && SpaceEnd(d, ValueEnd(d, first, depth).value) == pos + |before + JsonText(v) + after|
    decreases v, 3
  {
    hide At, JsonText, JsonOk, ValueEnd, SpaceEnd;
    PaddedJoins(d, pos, before, v, after);
    PaddedComplete(d, pos, depth, before, v, after);
    JsonTextStarts(v, depth);
  }

  lemma MarkStops(d: Bytes, pos: nat)
    requires pos < |d| && (d[pos] == COMMA || d[pos] == RBRACKET || d[pos] == RBRACE)
    ensures Stops(d, pos) && !IsSpace(d[pos])
    ensures d[pos] == COMMA ==> d[pos] != RBRACKET && d[pos] != RBRACE
  {
  }

  lemma NoElementsAt(d: Bytes, pos: nat, depth: nat, es: Elements)
    requires ElementsOk(es, depth) && es.NoElements? && At(d, pos, ElementsText(es))
    requires var close := pos + |ElementsText(es)|; close < |d| && d[close] == RBRACKET
    ensures SpaceEnd(d, pos) == pos + |ElementsText(es)|
  {
    hide SpaceEnd, At;
    SpaceComplete(d, pos, es.space);
  }

  // The first element and what stands behind it.
  lemma ElementsParts(d: Bytes, pos: nat, depth: nat, es: Elements)
    requires ElementsOk(es, depth) && !es.NoElements? && At(d, pos, ElementsText(es))
    requires var close := pos + |ElementsText(es)|; close < |d| && d[close] == RBRACKET
    ensures AllSpace(es.before) && JsonOk(es.value, depth) && AllSpace(es.after)
    ensures At(d, pos, es.before + JsonText(es.value) + es.after)
    ensures var stop := pos + |es.before + JsonText(es.value) + es.after|;
            && stop < |d| && d[stop] == (if es.NextElement? then COMMA else RBRACKET)
            && (es.LastElement? ==> pos + |ElementsText(es)| == stop)
            && (es.NextElement? ==>
                  && pos + |ElementsText(es)| == stop + 1 + |ElementsText(es.rest)|
                  && At(d, stop + 1, ElementsText(es.rest)) && ElementsOk(es.rest, depth) && !es.rest.NoElements?)
  {
    hide At, JsonText, JsonOk;
    if es.NextElement? {
      CommaJoins(d, pos, es.before + JsonText(es.value) + es.after, ElementsText(es.rest));
    }
  }

  lemma {:induction false} ElementsComplete(d: Bytes, pos: nat, depth: nat, es: Elements)
    requires ElementsOk(es, depth) && At(d, pos, ElementsText(es))
    requires var close := pos + |ElementsText(es)|; close < |d| && d[close] == RBRACKET
    ensures var first := SpaceEnd(d, pos);
            var close := pos + |ElementsText(es)|;
            && first < |d|
            && (d[first] == RBRACKET <==> es.NoElements?)
            && (if es.NoElements? then first == close else ElementsEnd(d, first, depth) == Some(close + 1))
    decreases es, 4
  {
    hide *;
    if es.NoElements? {
      NoElementsAt(d, pos, depth, es);
    } else {
      ElementsParts(d, pos, depth, es);
      var stop := pos + |es.before + JsonText(es.value) + es.after|;
      MarkStops(d, stop);
      ElementComplete(d, pos, depth, es.before, es.value, es.after);
      if es.NextElement? {
        ElementsComplete(d, stop + 1, depth, es.rest);
      }
      ElementsStep(d, SpaceEnd(d, pos), depth);
    }
  }

  // The key and its colon lead to the value.
  lemma MemberTextLength(m: Member)
    ensures |MemberText(m)| ==
            |m.before| + |StringText(m.key)| + |m.beforeColon| + 1 + |m.afterColon|
    ensures |StringText(m.key)| == |ItemsText(m.key)| + 2
  {
    hide ItemsText;
  }

  lemma KeyValueIs(m: Member)
    requires MemberOk(m)
    ensures KeyValue(m) == ItemsValue(m.key) && ItemsOk(m.key) && AllSpace(m.before) && AllSpace(m.beforeColon)
  {
  }

  lemma NotSpace(d: Bytes, pos: nat)
    ensures pos < |d| && (d[pos] == QUOTE || d[pos] == COLON) ==> !IsSpace(d[pos])
  {
  }

  lemma MemberHeadComplete(d: Bytes, pos: nat, m: Member)
    requires MemberOk(m) && At(d, pos, MemberText(m))
    ensures var start := pos + |m.before|;
            var keyEnd := start + |StringText(m.key)|;
            var colon := keyEnd + |m.beforeColon|;
            && SpaceEnd(d, pos) == start < |d| && d[start] == QUOTE
            && StringEnd(d, start + 1) == Some(keyEnd)
            && Unquote(d[start + 1..keyEnd - 1]) == KeyValue(m)
            && SpaceEnd(d, keyEnd) == colon < |d| && d[colon] == COLON
            && At(d, colon + 1, m.afterColon)
            && pos + |MemberText(m)| == colon + 1 + |m.afterColon|
  {
    hide *;
    MemberTextLength(m);
    KeyValueIs(m);
    MemberJoins(d, pos, m);
    var start := pos + |m.before|;
    var keyEnd := start + |StringText(m.key)|;
    StringJoins(d, start, m.key);
    NotSpace(d, start);
    NotSpace(d, keyEnd + |m.beforeColon|);
    SpaceComplete(d, pos, m.before);
    SpaceComplete(d, keyEnd, m.beforeColon);
    StringComplete(d, start + 1, m.key);
    AtIsSlice(d, start + 1, ItemsText(m.key));
    UnquoteText(m.key);
  }

  lemma {:induction false} MemberComplete(d: Bytes, pos: nat, depth: nat, m: Member, v: Json, after: Bytes,
                                          seen: set<Bytes>)
    requires MemberOk(m) && JsonOk(v, depth) && AllSpace(after) && KeyValue(m) !in seen
    requires At(d, pos, MemberText(m) + JsonText(v) + after)
    requires var stop := pos + |MemberText(m) + JsonText(v) + after|;
             Stops(d, stop) && (stop < |d| ==> !IsSpace(d[stop]))
    ensures var start := pos + |m.before|;
            var end := pos + |MemberText(m)| + |JsonText(v)|;
            && SpaceEnd(d, pos) == start < |d| && d[start] == QUOTE != RBRACE
            && MemberEnd(d, start, depth, seen) == Some(ReadMember(KeyValue(m), end))
            && SpaceEnd(d, end) == end + |after|
    decreases v, 3
  {
    hide At, JsonText, JsonOk, ValueEnd, SpaceEnd, StringEnd, MemberText, Unquote, KeyValue;
    PaddedJoins(d, pos, MemberText(m), v, after);
    MemberHeadComplete(d, pos, m);
    var value := pos + |MemberText(m)| - |m.afterColon|;
    PaddedComplete(d, value, depth, m.afterColon, v, after);
  }

  lemma NoMembersAt(d: Bytes, pos: nat, depth: nat, ms: Members)
    requires MembersOk(ms, depth) && ms.NoMembers? && At(d, pos, MembersText(ms))
    requires var close := pos + |MembersText(ms)|; close < |d| && d[close] == RBRACE
    ensures SpaceEnd(d, pos) == pos + |MembersText(ms)|
  {
    hide SpaceEnd, At;
    SpaceComplete(d, pos, ms.space);
  }

  // The first member and what stands behind it.
  lemma MembersParts(d: Bytes, pos: nat, depth: nat, ms: Members)
    requires MembersOk(ms, depth) && !ms.NoMembers? && At(d, pos, MembersText(ms))
    requires var close := pos + |MembersText(ms)|; close < |d| && d[close] == RBRACE
    ensures MemberOk(ms.member) && JsonOk(ms.value, depth) && AllSpace(ms.after)
    ensures At(d, pos, MemberText(ms.member) + JsonText(ms.value) + ms.after)
    ensures var stop := pos + |MemberText(ms.member) + JsonText(ms.value) + ms.after|;
            && stop < |d| && d[stop] == (if ms.NextMember? then COMMA else RBRACE)
            && (ms.LastMember? ==> pos + |MembersText(ms)| == stop)
            && (ms.NextMember? ==>
                  && pos + |MembersText(ms)| == stop + 1 + |MembersText(ms.rest)|
                  && At(d, stop + 1, MembersText(ms.rest)) && MembersOk(ms.rest, depth) && !ms.rest.NoMembers?)
  {
    hide At, JsonText, JsonOk, MemberText, MemberOk;
    if ms.NextMember? {
      CommaJoins(d, pos, MemberText(ms.member) + JsonText(ms.value) + ms.after, MembersText(ms.rest));
    }
  }

  lemma KeysOfRest(ms: Members, seen: set<Bytes>)
    requires !ms.NoMembers? && NewKeys(Keys(ms), seen)
    ensures KeyValue(ms.member) !in seen
    ensures ms.NextMember? ==> NewKeys(Keys(ms.rest), seen + {KeyValue(ms.member)})
  {
    hide NewKeys, KeyValue;
    var rest := if ms.NextMember? then Keys(ms.rest) else [];
    assert Keys(ms) == [KeyValue(ms.member)] + rest;
    NewKeysCons(KeyValue(ms.member), rest, seen);
  }

  lemma {:induction false} MembersComplete(d: Bytes, pos: nat, depth: nat, ms: Members, seen: set<Bytes>)
    requires MembersOk(ms, depth) && NewKeys(Keys(ms), seen) && At(d, pos, MembersText(ms))
    requires var close := pos + |MembersText(ms)|; close < |d| && d[close] == RBRACE
    ensures var first := SpaceEnd(d, pos);
            var close := pos + |MembersText(ms)|;
            && first < |d|
            && (d[first] == RBRACE <==> ms.NoMembers?)
            && (if ms.NoMembers? then first == close else MembersEnd(d, first, depth, seen) == Some(close + 1))
    decreases ms, 4
  {
    hide *;
    if ms.NoMembers? {
      NoMembersAt(d, pos, depth, ms);
    } else {
      MembersParts(d, pos, depth, ms);
      KeysOfRest(ms, seen);
      var stop := pos + |MemberText(ms.member) + JsonText(ms.value) + ms.after|;
      MarkStops(d, stop);
      MemberComplete(d, pos, depth, ms.member, ms.value, ms.after, seen);
      if ms.NextMember? {
        MembersComplete(d, stop + 1, depth, ms.rest, seen + {KeyValue(ms.member)});
      }
      MembersStep(d, SpaceEnd(d, pos), depth, seen);
    }
  }

  // ---------------------------------------------------------------- the parser decides the grammar

  lemma AcceptedIsStrictJson(d: Bytes)
    requires Accepts(d)
    ensures IsStrictJson(d)
  {
    hide SpaceEnd, ValueEnd, JsonText, JsonOk;
    var start, end := SpaceEnd(d, 0), ValueEnd(d, 0, 0).value;
    SpaceSound(d, 0);
    SpaceSound(d, end);
    var v := ValueSound(d, 0, 0);
    var t := Document(d[0..start], v, d[end..|d|]);
    PaddedJoins(d, 0, t.before, v, t.after);
    assert DocumentOk(t) && DocumentText(t) == d;
  }

  lemma StrictJsonIsAccepted(d: Bytes, t: Document)
    requires ValidUtf8(d) && DocumentOk(t) && DocumentText(t) == d
    ensures Accepts(d)
  {
    hide *;
    DocumentParts(d, t);
    PaddedComplete(d, 0, 0, t.before, t.value, t.after);
    AcceptsSpaced(d, |t.before|, |t.before| + |JsonText(t.value)|);
  }

  lemma DocumentParts(d: Bytes, t: Document)
    requires DocumentOk(t) && DocumentText(t) == d
    ensures At(d, 0, t.before) && At(d, |t.before|, JsonText(t.value))
    ensures At(d, |t.before| + |JsonText(t.value)|, t.after)
    ensures |d| == |t.before| + |JsonText(t.value)| + |t.after|
    ensures Stops(d, |d|) && AllSpace(t.before) && JsonOk(t.value, 0) && AllSpace(t.after)
  {
    assert At(d, 0, DocumentText(t));
    hide At, JsonText, JsonOk;
    PaddedJoins(d, 0, t.before, t.value, t.after);
  }

  lemma AcceptsSpaced(d: Bytes, start: nat, end: nat)
    requires ValidUtf8(d) && SpaceEnd(d, 0) == start < |d|
    requires ValueEnd(d, 0, 0) == Some(end) && end <= |d| && SpaceEnd(d, end) == |d|
    ensures Accepts(d)
  {
    hide ValueEnd, SpaceEnd, ValidUtf8;
  }

  // Accepted byte strings are the strict JSON documents, and no others.
  lemma AcceptsExactlyStrictJson(d: Bytes)
    ensures Accepts(d) <==> IsStrictJson(d)
  {
    if Accepts(d) {
      AcceptedIsStrictJson(d);
    }
    if IsStrictJson(d) {
      var t :| DocumentOk(t) && DocumentText(t) == d;
      StrictJsonIsAccepted(d, t);
    }
  }

  // ---------------------------------------------------------------- one reading of a string

  lemma AtSame(d: Bytes, pos: nat, a: Bytes, b: Bytes)
    requires At(d, pos, a) && At(d, pos, b) && |a| == |b|
    ensures a == b
  {
  }

  lemma {:induction false} SameItems(d: Bytes, pos: nat, a: seq<Item>, b: seq<Item>)
    requires ItemsOk(a) && ItemsOk(b) && At(d, pos, ItemsText(a)) && At(d, pos, ItemsText(b))
    requires |ItemsText(a)| == |ItemsText(b)|
    ensures a == b
    decreases |a|
  {
    hide At, ItemText, ItemOk;
    if a == [] || b == [] {
      SomeText(a);
      SomeText(b);
    } else {
      AtConcat(d, pos, ItemText(a[0]), ItemsText(a[1..]));
      AtConcat(d, pos, ItemText(b[0]), ItemsText(b[1..]));
      SameItem(d, pos, a[0], b[0]);
      SameItems(d, pos + |ItemText(a[0])|, a[1..], b[1..]);
      assert a == [a[0]] + a[1..] && b == [b[0]] + b[1..];
    }
  }

  lemma SomeText(items: seq<Item>)
    requires ItemsOk(items)
    ensures |ItemsText(items)| == 0 <==> items == []
  {
    if items != [] {
      ItemStarts(items[0]);
    }
  }

  lemma SameItem(d: Bytes, pos: nat, a: Item, b: Item)
    requires ItemOk(a) && ItemOk(b) && At(d, pos, ItemText(a)) && At(d, pos, ItemText(b))
    ensures a == b
  {
    hide *;
    ItemStarts(a);
    ItemStarts(b);
    AtFirst(d, pos, ItemText(a));
    AtFirst(d, pos, ItemText(b));
    if !a.Plain? {
      EscapeComplete(d, pos, a);
      EscapeComplete(d, pos, b);
      AtSame(d, pos, ItemText(a), ItemText(b));
      ItemByText(a, b);
    }
  }

  // Only an escape starts with a backslash.
  lemma ItemStarts(i: Item)
    requires ItemOk(i)
    ensures ItemText(i) != [] && (ItemText(i)[0] == BACKSLASH <==> !i.Plain?)
    ensures i.Plain? ==> i == Plain(ItemText(i)[0])
  {
  }

  // The length of an escape gives its kind, and its text the rest.
  lemma ItemByText(a: Item, b: Item)
    requires ItemOk(a) && ItemOk(b) && !a.Plain? && !b.Plain? && ItemText(a) == ItemText(b)
    ensures a == b
  {
    ItemCuts(a);
    ItemCuts(b);
    hide *;
    assert a == b;
  }

  lemma ItemCuts(i: Item)
    requires ItemOk(i) && !i.Plain?
    ensures |ItemText(i)| == if i.Short? then 2 else if i.Unicode? then 6 else 12
    ensures i.Short? ==> i == Short(ItemText(i)[1])
    ensures i.Unicode? ==> i == Unicode(ItemText(i)[2..])
    ensures i.Pair? ==> i == Pair(ItemText(i)[2..6], ItemText(i)[8..])
  {
  }
}
