// How a scope is spelled, byte by byte.

module ScopeSpelling {
  import opened ByteSeqs
  import opened ByteText
  import opened ClaimFields
  import opened JsonGrammar
  import opened Results
  import opened ScopeUri

  // Letters, digits, and the four marks of section 2.3 of RFC 3986.
  predicate StandsForItself(b: byte) {
    0x41 <= b <= 0x5A || 0x61 <= b <= 0x7A || 0x30 <= b <= 0x39 || b in {0x2D, 0x2E, 0x5F, 0x7E}
  }

  const UPPER_HEX := Chars("0123456789ABCDEF")

  // A byte of a name or a value: as it is, or as a percent sign and two upper-case digits.
  function SpelledByte(b: byte): Bytes {
    if StandsForItself(b) then [b] else [0x25, UPPER_HEX[b / 16], UPPER_HEX[b % 16]]
  }

  function SpelledText(s: Bytes): Bytes {
    if s == [] then [] else SpelledByte(s[0]) + SpelledText(s[1..])
  }

  lemma ByteIsSpelled(b: byte)
    ensures EncodeByte(b) == SpelledByte(b)
  {
    DigitIsUpper(b / 16);
    DigitIsUpper(b % 16);
    hide UPPER_HEX, UpperHex;
  }

  lemma DigitIsUpper(n: nat)
    requires n < 16
    ensures |UPPER_HEX| == 16 && UpperHex(n) == UPPER_HEX[n]
  {
  }

  lemma {:induction false} TextIsSpelled(s: Bytes)
    ensures EncodeComponent(s) == SpelledText(s)
  {
    hide EncodeByte, SpelledByte;
    if s != [] {
      ByteIsSpelled(s[0]);
      TextIsSpelled(s[1..]);
    }
  }

  // The parameters of a scope: its group, if it has one, and its labels.
  ghost function Parameters(s: Scope): set<Bytes> {
    (if s.group != [] then {Chars("group=") + SpelledText(s.group)} else {})
    + set k <- s.labels :: Chars("label.") + SpelledText(k) + [0x3D] + SpelledText(s.labels[k])
  }

  // A scope without an empty key whose URI fits is spelled as the base, and, if it says anything, a
  // question mark and its parameters in bytewise order between ampersands.
  lemma ScopeIsSpelled(s: Scope) returns (params: seq<Bytes>)
    ensures Sorted(params) && multiset(params) == multiset(Parameters(s))
    ensures var uri := Chars("emisar://dispatch/v1") + if params == [] then [] else [0x3F] + Join(params, 0x26);
            Encoded(s) == if [] in s.labels then Refused(EmptyKey)
                          else if |uri| > 512 then Refused(TooLong) else Ok(uri)
  {
    hide *;
    params := InOrder(Params(s));
    ParametersAre(s);
    BaseIs();
    NothingToSay(s);
    SpellingIs(s, params);
    EncodedIs(s);
    SeparatorsAre();
    assert SCOPE_URI + [] == SCOPE_URI;
    assert SCOPE_URI + [0x3F] + Join(params, 0x26) == SCOPE_URI + ([0x3F] + Join(params, 0x26));
  }

  lemma SeparatorsAre()
    ensures QUESTION == 0x3F && AMPERSAND == 0x26 && MAX_SCOPE_URI_BYTES == 512
  {
  }

  lemma SpellingIs(s: Scope, params: seq<Bytes>)
    requires params == InOrder(Params(s))
    ensures Spelling(s) == if s == UNSCOPED then SCOPE_URI else SCOPE_URI + [QUESTION] + Join(params, AMPERSAND)
  {
    hide InOrder, Params, Join;
  }

  lemma BaseIs()
    ensures SCOPE_URI == Chars("emisar://dispatch/v1")
  {
    hide Chars, Ascii;
    AsciiIsChars("emisar://dispatch/v1");
  }

  lemma LabelIs()
    ensures LABEL == Chars("label.")
  {
    hide Chars, Ascii;
    AsciiIsChars("label.");
  }

  lemma GroupIs()
    ensures GROUP + [0x3D] == Chars("group=")
  {
  }

  lemma ParametersAre(s: Scope)
    ensures Params(s) == Parameters(s)
  {
    LabelIs();
    GroupIs();
    TextIsSpelled(s.group);
    forall k | k in s.labels
      ensures LabelParam(k, s.labels[k]) == Chars("label.") + SpelledText(k) + [0x3D] + SpelledText(s.labels[k])
    {
      TextIsSpelled(k);
      TextIsSpelled(s.labels[k]);
    }
    hide Chars, EncodeComponent, SpelledText;
  }

  lemma NothingToSay(s: Scope)
    ensures InOrder(Params(s)) == [] <==> s == UNSCOPED
  {
    assert |multiset(Params(s))| == |InOrder(Params(s))|;
    if s.labels != map[] {
      var k :| k in s.labels;
      assert LabelParam(k, s.labels[k]) in Params(s);
      assert LabelParam(k, s.labels[k]) in multiset(InOrder(Params(s)));
    }
    if s.group != [] {
      assert GroupParam(s.group) in Params(s);
      assert GroupParam(s.group) in multiset(InOrder(Params(s)));
    }
  }

  // ---------------------------------------------------------------- reading

  // A byte as it may be spelled: as it is, if it stands for itself, or as a percent sign and two hex digits of
  // either case.
  datatype Part = Itself(b: byte) | Escaped(high: byte, low: byte)

  predicate PartOk(p: Part) {
    match p
    case Itself(b) => StandsForItself(b)
    case Escaped(high, low) => IsHex(high) && IsHex(low)
  }

  function PartText(p: Part): Bytes {
    match p
    case Itself(b) => [b]
    case Escaped(high, low) => [0x25, high, low]
  }

  function PartValue(p: Part): byte
    requires PartOk(p)
  {
    match p
    case Itself(b) => b
    case Escaped(high, low) => HexDigit(high) * 16 + HexDigit(low)
  }

  function PartsText(parts: seq<Part>): Bytes {
    if parts == [] then [] else PartText(parts[0]) + PartsText(parts[1..])
  }

  function PartsValue(parts: seq<Part>): Bytes
    requires forall p <- parts :: PartOk(p)
  {
    if parts == [] then [] else [PartValue(parts[0])] + PartsValue(parts[1..])
  }

  lemma {:induction false} PartsDecode(parts: seq<Part>)
    requires forall p <- parts :: PartOk(p)
    ensures DecodeComponent(PartsText(parts)) == Ok(PartsValue(parts))
  {
    if parts != [] {
      var s, rest := PartsText(parts), PartsText(parts[1..]);
      PartsDecode(parts[1..]);
      assert parts[0].Itself? ==> s[0] == parts[0].b && s[1..] == rest;
      assert parts[0].Escaped? ==> s[1] == parts[0].high && s[2] == parts[0].low && s[3..] == rest;
      PartDecodes(parts[0], rest);
    }
  }

  lemma PartDecodes(p: Part, rest: Bytes)
    requires PartOk(p)
    ensures DecodeComponent(PartText(p) + rest) == Prepend([PartValue(p)], DecodeComponent(rest))
  {
    var s := PartText(p) + rest;
    if p.Itself? {
      assert s[1..] == rest;
    } else {
      assert s[3..] == rest;
    }
  }

  lemma {:induction false} DecodedParts(s: Bytes) returns (parts: seq<Part>)
    requires DecodeComponent(s).Ok?
    ensures (forall p <- parts :: PartOk(p)) && PartsText(parts) == s
    decreases |s|
  {
    if s == [] {
      parts := [];
    } else if s[0] != PERCENT {
      var rest := DecodedParts(s[1..]);
      parts := [Itself(s[0])] + rest;
      assert parts[1..] == rest && s == [s[0]] + s[1..];
    } else {
      var rest := DecodedParts(s[3..]);
      parts := [Escaped(s[1], s[2])] + rest;
      assert parts[1..] == rest && s == [s[0], s[1], s[2]] + s[3..];
    }
  }

  // A name or a value is decoded if and only if every byte of it is spelled so, and to those bytes.
  lemma DecodesExactly(s: Bytes, value: Bytes)
    ensures DecodeComponent(s) == Ok(value) <==>
              exists parts: seq<Part> | (forall p <- parts :: PartOk(p)) ::
                PartsText(parts) == s && PartsValue(parts) == value
  {
    if DecodeComponent(s) == Ok(value) {
      var parts := DecodedParts(s);
      PartsDecode(parts);
    }
    forall parts: seq<Part> | (forall p <- parts :: PartOk(p)) && PartsText(parts) == s
      ensures DecodeComponent(s) == Ok(PartsValue(parts))
    {
      PartsDecode(parts);
    }
  }

  // What one parameter says, or why it is refused.
  lemma ParameterIsRead(name: Bytes, value: Bytes, s: Scope)
    requires 0x3D !in name
    ensures ReadParam(name, s) == Refused(NoValue)
    ensures ReadParam(name + [0x3D] + value, s) ==
            match DecodeComponent(value)
            case Refused(e) => Refused(e)
            case Ok(text) =>
              if name == Chars("group") then
                if s.group != [] then Refused(RepeatedGroup)
                else if text == [] then Refused(EmptyGroup)
                else Ok(Scope(text, s.labels))
              else if Chars("label.") <= name then
                match DecodeComponent(name[6..])
                case Refused(e) => Refused(e)
                case Ok(key) =>
                  if key == [] then Refused(EmptyKey)
                  else if key in s.labels then Refused(RepeatedLabel)
                  else Ok(Scope(s.group, s.labels[key := text]))
              else Refused(UnknownParameter)
  {
    CutAfter(name, 0x3D, value);
    LabelIs();
    GroupNameIs();
    hide Chars, DecodeComponent, Cut;
  }

  lemma GroupNameIs()
    ensures GROUP == Chars("group") && |LABEL| == 6
  {
  }

  // What a URI says, or why it is refused, before its spelling is compared with the canonical one.
  lemma UriIsRead(raw: Bytes)
    ensures var base := Chars("emisar://dispatch/v1");
            var query := if base <= raw then raw[|base|..] else [];
            Meaning(raw) ==
            if |raw| > 512 then Refused(TooLong)
            else if raw == base then Ok(Scope([], map[]))
            else if !(base <= raw) || query[0] != 0x3F then Refused(WrongBase)
            else if query == [0x3F] then Refused(EmptyQuery)
            else ReadParams(Split(query[1..], 0x26), Scope([], map[]))
  {
    BaseIs();
    BaseIsPlain();
    hide Chars, SCOPE_URI, Split, ReadParams;
    var base := SCOPE_URI;
    if raw == base {
      CutAfter(base, 0x3F, []);
    } else if base <= raw && raw[|base|] == 0x3F {
      CutAfter(base, 0x3F, raw[|base| + 1..]);
      assert raw == base + [0x3F] + raw[|base| + 1..] && raw[|base|..][1..] == raw[|base| + 1..];
      assert raw[|base|..] == [0x3F] + raw[|base| + 1..];
    } else {
      CutIsPrefix(raw, 0x3F);
    }
  }

  lemma BaseIsPlain()
    ensures 0x3F !in SCOPE_URI
  {
    NamesArePlain();
  }

  lemma CutIsPrefix(s: Bytes, sep: byte)
    ensures var cut := Cut(s, sep);
            && cut.before <= s && (cut.found ==> |cut.before| < |s| && s[|cut.before|] == sep)
            && (!cut.found ==> cut.before == s)
  {
  }
}
