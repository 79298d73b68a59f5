// What the claim bytes hold: one strict JSON object without any space, whose members carry the facts
// under their own names and in their own order.

module ClaimFields {
  import opened ByteSeqs
  import opened ByteText
  import opened ClaimBytes
  import opened JsonGrammar
  import opened Options
  import opened Results

  // A text as a JSON string can hold it: every byte that is no UTF-8 becomes U+FFFD.
  function Repaired(s: Bytes): Bytes {
    if s == [] then []
    else if Utf8Length(s) == 0 then [0xEF, 0xBF, 0xBD] + Repaired(s[1..])
    else s[..Utf8Length(s)] + Repaired(s[Utf8Length(s)..])
  }

  lemma {:induction false} RepairedUtf8(s: Bytes)
    requires ValidUtf8(s)
    ensures Repaired(s) == s
  {
    hide Utf8Length;
    if s != [] {
      var n := Utf8Length(s);
      RepairedUtf8(s[n..]);
      assert s == s[..n] + s[n..];
    }
  }

  lemma {:induction false} QuotedDecodes(s: Bytes)
    ensures ItemsOk(TextItems(s)) && ItemsValue(TextItems(s)) == Repaired(s)
  {
    hide ItemOk, ItemValue, RuneItems, Utf8Length;
    if s != [] {
      var n := Utf8Length(s);
      if n == 0 {
        QuotedDecodes(s[1..]);
        ReplacementValue();
        ValueConcat([REPLACEMENT], TextItems(s[1..]));
      } else {
        QuotedDecodes(s[n..]);
        RuneItemsFacts(s);
        ValueConcat(RuneItems(s[..n]), TextItems(s[n..]));
      }
    }
  }

  lemma ReplacementValue()
    ensures ItemsOk([REPLACEMENT]) && ItemsValue([REPLACEMENT]) == [0xEF, 0xBF, 0xBD]
  {
    assert QuadValue(REPLACEMENT.digits) == 0xFFFD;
    assert [REPLACEMENT][1..] == [];
  }

  // How json.Marshal spells an ASCII character: as it is, or as one of seven short escapes, or, for the
  // other controls and the three characters HTML gives a meaning, as four hex digits.
  lemma AsciiSpelling(b: byte)
    requires b < 0x80
    ensures var text := ItemText(AsciiItem(b));
            if b == 0x22 || b == 0x5C then text == [0x5C, b]
            else if b == 0x08 then text == Ascii("\\b")
            else if b == 0x09 then text == Ascii("\\t")
            else if b == 0x0A then text == Ascii("\\n")
            else if b == 0x0C then text == Ascii("\\f")
            else if b == 0x0D then text == Ascii("\\r")
            else if b < 0x20 || b == 0x26 || b == 0x3C || b == 0x3E then
              text == Ascii("\\u00") + [HEX[b / 16], HEX[b % 16]]
            else text == [b]
  {
  }

  const HEX: Bytes := Ascii("0123456789abcdef")

  lemma DigitSpelling(n: nat)
    requires n < 16
    ensures LowerHex(n) == HEX[n]
  {
  }

  // A digest is written as two lower-case digits for each byte, the high half first.
  lemma {:induction false} HexSpelling(s: Bytes, i: nat)
    requires i < |s|
    ensures |HexText(s)| == 2 * |s| && HexText(s)[2 * i] == HEX[s[i] / 16] && HexText(s)[2 * i + 1] == HEX[s[i] % 16]
  {
    DigitSpelling(s[0] / 16);
    DigitSpelling(s[0] % 16);
    hide LowerHex, HEX;
    if i > 0 {
      HexSpelling(s[1..], i - 1);
    } else if |s| > 1 {
      HexSpelling(s[1..], 0);
    }
  }

  // ---------------------------------------------------------------- objects and arrays of strings

  // An object without any space whose values are strings.
  ghost predicate HoldsTexts(ms: Members) {
    match ms
    case NoMembers(space) => space == []
    case LastMember(m, v, after) => IsTextMember(m, v, after)
    case NextMember(m, v, after, rest) => IsTextMember(m, v, after) && HoldsTexts(rest)
  }

  ghost predicate IsTextMember(m: Member, v: Json, after: Bytes) {
    && m.before == m.beforeColon == m.afterColon == after == []
    && ItemsOk(m.key) && v.Text? && ItemsOk(v.items)
  }

  // Its decoded names and values, in order.
  ghost function TextsOf(ms: Members): seq<(Bytes, Bytes)>
    requires HoldsTexts(ms)
  {
    match ms
    case NoMembers(_) => []
    case LastMember(m, v, _) => [(ItemsValue(m.key), ItemsValue(v.items))]
    case NextMember(m, v, _, rest) => [(ItemsValue(m.key), ItemsValue(v.items))] + TextsOf(rest)
  }

  function MembersOf(names: seq<Bytes>, values: seq<Bytes>): Members
    requires |names| == |values| > 0
  {
    var m, v := Member([], TextItems(names[0]), [], []), Text(TextItems(values[0]));
    if |names| == 1 then LastMember(m, v, []) else NextMember(m, v, [], MembersOf(names[1..], values[1..]))
  }

  lemma {:induction false} FieldsAreMembers(names: seq<Bytes>, values: seq<Bytes>)
    requires |names| == |values| > 0
    ensures FieldsText(names, values) == MembersText(MembersOf(names, values)) + [RBRACE]
    ensures HoldsTexts(MembersOf(names, values)) && MembersOk(MembersOf(names, values), 1)
    decreases |names|
  {
    hide *;
    var m, v := Member([], TextItems(names[0]), [], []), Text(TextItems(values[0]));
    QuotedDecodes(names[0]);
    QuotedDecodes(values[0]);
    MemberIsField(m, names[0]);
    TextIsQuoted(values[0]);
    FieldsHead(names, values);
    if |names| > 1 {
      FieldsAreMembers(names[1..], values[1..]);
      MoreMembers(m, v, names, values);
      MembersAssemble(Quoted(names[0]) + [COLON], Quoted(values[0]), [COMMA],
                      MembersText(MembersOf(names[1..], values[1..])));
    } else {
      assert names[1..] == [] && values[1..] == [];
      OneMember(m, v, names, values);
      MembersAssemble(Quoted(names[0]) + [COLON], Quoted(values[0]), [], []);
    }
  }

  lemma TextIsQuoted(value: Bytes)
    ensures JsonText(Text(TextItems(value))) == Quoted(value)
  {
    hide StringText, TextItems;
  }

  lemma MembersAssemble(head: Bytes, value: Bytes, comma: Bytes, rest: Bytes)
    ensures head + (value + (comma + (rest + [RBRACE]))) == head + value + [] + comma + rest + [RBRACE]
    ensures comma + rest == [] ==> head + (value + ([] + [RBRACE])) == head + value + [] + [RBRACE]
  {
    hide RBRACE;
  }

  lemma MoreMembers(m: Member, v: Json, names: seq<Bytes>, values: seq<Bytes>)
    requires |names| == |values| > 1 && ItemsOk(TextItems(names[0])) && ItemsOk(TextItems(values[0]))
    requires m == Member([], TextItems(names[0]), [], []) && v == Text(TextItems(values[0]))
    requires HoldsTexts(MembersOf(names[1..], values[1..])) && MembersOk(MembersOf(names[1..], values[1..]), 1)
    ensures var ms := MembersOf(names, values);
            && HoldsTexts(ms) && MembersOk(ms, 1) && Comma(|values|) == [COMMA]
            && MembersText(ms) ==
               MemberText(m) + JsonText(v) + [] + [COMMA] + MembersText(MembersOf(names[1..], values[1..]))
  {
    hide ItemsOk, TextItems, MemberText, StringText;
  }

  lemma OneMember(m: Member, v: Json, names: seq<Bytes>, values: seq<Bytes>)
    requires |names| == |values| == 1 && ItemsOk(TextItems(names[0])) && ItemsOk(TextItems(values[0]))
    requires m == Member([], TextItems(names[0]), [], []) && v == Text(TextItems(values[0]))
    ensures var ms := MembersOf(names, values);
            && HoldsTexts(ms) && MembersOk(ms, 1) && Comma(|values|) == [] && FieldsText([], []) == [RBRACE]
            && MembersText(ms) == MemberText(m) + JsonText(v) + []
  {
    hide ItemsOk, TextItems, MemberText, StringText;
  }

  lemma MemberIsField(m: Member, name: Bytes)
    requires m == Member([], TextItems(name), [], [])
    ensures MemberText(m) == Quoted(name) + [COLON]
  {
    hide ItemsText, TextItems;
  }

  lemma {:induction false} MembersHold(names: seq<Bytes>, values: seq<Bytes>, i: nat)
    requires |names| == |values| && i < |names|
    ensures HoldsTexts(MembersOf(names, values))
    ensures var texts := TextsOf(MembersOf(names, values));
            |texts| == |names| == |Keys(MembersOf(names, values))|
            && texts[i] == (Repaired(names[i]), Repaired(values[i]))
            && Keys(MembersOf(names, values))[i] == Repaired(names[i])
    decreases |names|
  {
    hide TextItems, ItemsOk, ItemsValue;
    QuotedDecodes(names[0]);
    QuotedDecodes(values[0]);
    if |names| > 1 {
      MembersHold(names[1..], values[1..], if i > 0 then i - 1 else 0);
    }
  }

  // ---------------------------------------------------------------- the claim

  // The bytes of an ASCII text.
  function Chars(s: string): Bytes {
    seq(|s|, i requires 0 <= i < |s| => s[i] as int % 256)
  }

  const NAMES := [
    "version", "tool", "portal_origin", "action_id", "pack_ref", "args_sha256", "runner_refs_sha256",
    "reason", "evidence_sha256", "expected_sha256", "operation_id", "nonce", "issued_at"
  ]

  // The facts of a claim whose refs are hashed as this text, each under its name.
  ghost predicate HoldsFacts(p: Platform, c: Claim, refs: Bytes, texts: seq<(Bytes, Bytes)>) {
    && |texts| == |NAMES| == 13 && (forall i :: 0 <= i < 13 ==> texts[i].0 == Chars(NAMES[i]))
    && texts[0].1 == Chars("emisar-attestation-v5")
    && texts[1].1 == Chars("run_action")
    && texts[2].1 == Repaired(c.portalOrigin)
    && texts[3].1 == Repaired(c.actionID)
    && texts[4].1 == Repaired(c.packRef)
    && texts[5].1 == HexText(p.sha256(if c.argsRaw == [] then Chars("{}") else c.argsRaw))
    && texts[6].1 == HexText(p.sha256(refs))
    && texts[7].1 == Repaired(c.reason)
    && texts[8].1 == NarrativeSigned(p, c.evidenceDigest, c.evidence)
    && texts[9].1 == NarrativeSigned(p, c.expectedDigest, c.expected)
    && texts[10].1 == Repaired(c.operationID)
    && texts[11].1 == Repaired(c.nonce)
    && texts[12].1 == Repaired(c.issuedAt)
  }

  // A verifier's digest as it is, a signer's text hashed.
  function NarrativeSigned(p: Platform, digest: Bytes, text: Bytes): Bytes {
    if digest == [] then HexText(p.sha256(text)) else Repaired(digest)
  }

  lemma AsciiIsRepaired(s: Bytes)
    requires forall i :: 0 <= i < |s| ==> s[i] < 0x80
    ensures Repaired(s) == s
  {
    AsciiIsUtf8(s);
    RepairedUtf8(s);
  }

  lemma DigestIsRepaired(p: Platform, s: Bytes)
    ensures Repaired(TextSHA256(p, s)) == HexText(p.sha256(s))
  {
    HexIsUtf8(p.sha256(s));
    RepairedUtf8(HexText(p.sha256(s)));
  }

  lemma NamesAreRepaired(i: nat)
    requires i < 13
    ensures |FIELD_NAMES| == 13 && Repaired(FIELD_NAMES[i]) == FIELD_NAMES[i]
  {
    AsciiIsRepaired(FIELD_NAMES[i]);
  }

  lemma NamesDiffer(keys: seq<Bytes>)
    requires |keys| == 13 && forall i :: 0 <= i < 13 ==> keys[i] == FIELD_NAMES[i]
    ensures Distinct(keys)
  {
    assert FIELD_NAMES[3][0] != FIELD_NAMES[12][0] && FIELD_NAMES[8][1] != FIELD_NAMES[9][1];
    assert forall i, j :: 0 <= i < j < 13 && (i, j) != (3, 12) && (i, j) != (8, 9)
                          ==> |FIELD_NAMES[i]| != |FIELD_NAMES[j]|;
  }

  lemma NameIsAscii(i: nat)
    requires i < 13
    ensures |FIELD_NAMES| == |NAMES| == 13 && FIELD_NAMES[i] == Ascii(NAMES[i]) && IsAscii(NAMES[i])
  {
    hide Ascii;
  }

  lemma NameLiteral(i: nat)
    requires i < 13
    ensures |FIELD_NAMES| == |NAMES| == 13 && FIELD_NAMES[i] == Chars(NAMES[i])
  {
    hide *;
    NameIsAscii(i);
    AsciiIsChars(NAMES[i]);
  }

  lemma NarrativeIsSigned(p: Platform, digest: Bytes, text: Bytes)
    ensures Repaired(NarrativeDigest(p, digest, text)) == NarrativeSigned(p, digest, text)
  {
    DigestIsRepaired(p, text);
    hide Repaired, TextSHA256, HexText;
  }

  lemma AsciiIsChars(s: string)
    requires IsAscii(s)
    ensures Ascii(s) == Chars(s) && Repaired(Ascii(s)) == Ascii(s)
  {
    AsciiIsRepaired(Ascii(s));
  }

  lemma LiteralsAreRepaired()
    ensures Repaired(VERSION) == Chars("emisar-attestation-v5") && Repaired(TOOL) == Chars("run_action")
  {
    hide Repaired, Chars, Ascii;
    AsciiIsChars("emisar-attestation-v5");
    AsciiIsChars("run_action");
  }

  lemma ArgsLiteral(c: Claim)
    ensures ArgsOf(c) == if c.argsRaw == [] then Chars("{}") else c.argsRaw
  {
  }

  lemma ValuesAreFacts(p: Platform, c: Claim, refs: seq<Bytes>, texts: seq<(Bytes, Bytes)>)
    requires |FIELD_NAMES| == |texts| == 13
    requires forall i :: 0 <= i < 13 ==> texts[i] == (FIELD_NAMES[i], Repaired(FieldValues(p, c, refs)[i]))
    ensures HoldsFacts(p, c, ArrayText(refs), texts)
  {
    hide Repaired, Ascii, Chars, ArgsOf, NarrativeDigest, TextSHA256, HexText, ArrayText, NarrativeSigned;
    hide VERSION, TOOL, FIELD_NAMES, NAMES;
    NameLiteral(0);
    forall i | 0 <= i < 13 ensures |NAMES| == 13 && FIELD_NAMES[i] == Chars(NAMES[i]) {
      NameLiteral(i);
    }
    LiteralsAreRepaired();
    ArgsLiteral(c);
    DigestIsRepaired(p, ArgsOf(c));
    DigestIsRepaired(p, ArrayText(refs));
    NarrativeIsSigned(p, c.evidenceDigest, c.evidence);
    NarrativeIsSigned(p, c.expectedDigest, c.expected);
  }

  // A claim is signed if and only if its arguments, an empty object when there are none, are one JSON object
  // and its refs are a usable target set; the arguments are looked at first.
  lemma SignsExactly(p: Platform, c: Claim)
    ensures var ok := p.isObject(if c.argsRaw == [] then Chars("{}") else c.argsRaw);
            && (SigningBytes(p, c).Ok? <==> ok && GoodRefs(c.runnerRefs))
            && (SigningBytes(p, c) == Refused(BadArgs) <==> !ok)
            && (ok && !GoodRefs(c.runnerRefs) ==> SigningBytes(p, c) == Refused(Canonical(c.runnerRefs).reason))
  {
    ArgsLiteral(c);
    RefsAreASet(c.runnerRefs);
    RefusalsAreTrue(c.runnerRefs);
    hide Canonical, ArgsOf, GoodRefs, StructText, FieldValues, Chars;
  }

  // The bytes of an accepted claim are one strict JSON object without any space, whose decoded names are
  // the thirteen, in this order, each with its own fact.
  lemma ClaimBytesHoldFacts(p: Platform, c: Claim)
    requires SigningBytes(p, c).Ok?
    ensures exists ms: Members ::
              && DocumentText(Document([], Object(ms), [])) == SigningBytes(p, c).value
              && DocumentOk(Document([], Object(ms), [])) && HoldsTexts(ms)
              && HoldsFacts(p, c, ArrayText(Canonical(c.runnerRefs).value), TextsOf(ms))
  {
    hide *;
    SignedText(p, c);
    NamesAreThirteen();
    var refs := Canonical(c.runnerRefs).value;
    var values := FieldValues(p, c, refs);
    var ms := MembersOf(FIELD_NAMES, values);
    FieldsAreMembers(FIELD_NAMES, values);
    MembersHold(FIELD_NAMES, values, 0);
    forall i | 0 <= i < 13
      ensures |TextsOf(ms)| == |FIELD_NAMES| == |Keys(ms)| && Keys(ms)[i] == FIELD_NAMES[i]
      ensures TextsOf(ms)[i] == (FIELD_NAMES[i], Repaired(values[i]))
    {
      NamesAreRepaired(i);
      MembersHold(FIELD_NAMES, values, i);
    }
    NamesDiffer(Keys(ms));
    ValuesAreFacts(p, c, refs, TextsOf(ms));
    ObjectIsDocument(ms);
  }

  lemma SignedText(p: Platform, c: Claim)
    requires SigningBytes(p, c).Ok?
    ensures Canonical(c.runnerRefs).Ok? && |FIELD_NAMES| == 13
    ensures SigningBytes(p, c).value ==
            [LBRACE] + FieldsText(FIELD_NAMES, FieldValues(p, c, Canonical(c.runnerRefs).value))
  {
    hide Canonical, FieldsText, FieldValues;
  }

  lemma NamesAreThirteen()
    ensures |FIELD_NAMES| == 13
  {
  }

  lemma ObjectIsDocument(ms: Members)
    requires MembersOk(ms, 1) && Distinct(Keys(ms))
    ensures DocumentOk(Document([], Object(ms), []))
    ensures DocumentText(Document([], Object(ms), [])) == [LBRACE] + (MembersText(ms) + [RBRACE])
  {
    hide MembersOk, MembersText, Distinct, Keys;
    assert JsonText(Object(ms)) == [LBRACE] + MembersText(ms) + [RBRACE];
  }

  // ---------------------------------------------------------------- the refs that are hashed

  ghost predicate HoldsElements(es: Elements) {
    match es
    case NoElements(space) => space == []
    case LastElement(before, v, after) => before == after == [] && v.Text? && ItemsOk(v.items)
    case NextElement(before, v, after, rest) =>
      before == after == [] && v.Text? && ItemsOk(v.items) && HoldsElements(rest)
  }

  ghost function ElementTexts(es: Elements): seq<Bytes>
    requires HoldsElements(es)
  {
    match es
    case NoElements(_) => []
    case LastElement(_, v, _) => [ItemsValue(v.items)]
    case NextElement(_, v, _, rest) => [ItemsValue(v.items)] + ElementTexts(rest)
  }

  function ElementsOf(values: seq<Bytes>): Elements
    requires values != []
  {
    var v := Text(TextItems(values[0]));
    if |values| == 1 then LastElement([], v, []) else NextElement([], v, [], ElementsOf(values[1..]))
  }

  lemma {:induction false} ListIsElements(values: seq<Bytes>)
    requires values != []
    ensures ListText(values) == ElementsText(ElementsOf(values)) + [RBRACKET]
    ensures HoldsElements(ElementsOf(values)) && ElementsOk(ElementsOf(values), 1)
    ensures |ElementTexts(ElementsOf(values))| == |values|
    ensures forall i :: 0 <= i < |values| ==> ElementTexts(ElementsOf(values))[i] == Repaired(values[i])
  {
    hide ItemsText, TextItems, ItemsOk, ItemsValue, Repaired;
    QuotedDecodes(values[0]);
    ListHead(values);
    assert JsonText(Text(TextItems(values[0]))) == Quoted(values[0]);
    hide Quoted, StringText;
    if |values| > 1 {
      ListIsElements(values[1..]);
    } else {
      assert values[1..] == [];
      ListHead(values[1..]);
      assert ListText(values[1..]) == [RBRACKET];
    }
  }

  // What is hashed for the targets is the strict JSON array of the refs, sorted bytewise.
  lemma HashedRefsAreTheTargets(refs: seq<Bytes>)
    requires Canonical(refs).Ok?
    ensures var sorted := Canonical(refs).value;
            && Sorted(sorted) && multiset(sorted) == multiset(refs)
            && exists es: Elements ::
                 && ArrayText(sorted) == JsonText(Array(es)) && JsonOk(Array(es), 0) && HoldsElements(es)
                 && |ElementTexts(es)| == |sorted|
                 && forall i :: 0 <= i < |sorted| ==> ElementTexts(es)[i] == Repaired(sorted[i])
  {
    hide *;
    RefsAreASet(refs);
    var sorted := Canonical(refs).value;
    GoodRefsExist(refs, sorted);
    ListIsElements(sorted);
    var es := ElementsOf(sorted);
    ArrayIsText(sorted, es);
  }

  lemma GoodRefsExist(refs: seq<Bytes>, sorted: seq<Bytes>)
    requires GoodRefs(refs) && multiset(sorted) == multiset(refs)
    ensures sorted != []
  {
    assert |multiset(sorted)| == |sorted| && |multiset(refs)| == |refs|;
  }

  lemma ArrayIsText(values: seq<Bytes>, es: Elements)
    requires ListText(values) == ElementsText(es) + [RBRACKET] && ElementsOk(es, 1)
    ensures ArrayText(values) == JsonText(Array(es)) && JsonOk(Array(es), 0)
  {
    hide ListText, ElementsText, ElementsOk;
    assert [LBRACKET] + (ElementsText(es) + [RBRACKET]) == [LBRACKET] + ElementsText(es) + [RBRACKET];
  }
}
