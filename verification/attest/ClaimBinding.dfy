// What the claim bytes bind of any claim, UTF-8 or not: every fact as it is marshalled; and which texts
// are bound as they are.

module ClaimBinding {
  import opened ByteSeqs
  import opened ByteText
  import opened ClaimBytes
  import opened JsonGrammar
  import opened Results
  import opened StrictJsonProofs

  // ---------------------------------------------------------------- equal texts, equal strings

  ghost predicate SameQuoted(v: seq<Bytes>, w: seq<Bytes>) {
    |v| == |w| && forall i :: 0 <= i < |v| ==> Quoted(v[i]) == Quoted(w[i])
  }

  lemma SameQuotedTail(v: seq<Bytes>, w: seq<Bytes>)
    requires v != [] && w != [] && Quoted(v[0]) == Quoted(w[0])
    ensures SameQuoted(v, w) <==> SameQuoted(v[1..], w[1..])
  {
    hide Quoted;
    if SameQuoted(v[1..], w[1..]) {
      forall i | 0 <= i < |v| ensures Quoted(v[i]) == Quoted(w[i]) {
        assert i > 0 ==> v[i] == v[1..][i - 1] && w[i] == w[1..][i - 1];
      }
    }
  }

  lemma {:induction false} FieldsBindQuoted(names: seq<Bytes>, v: seq<Bytes>, w: seq<Bytes>)
    requires |names| == |v| == |w|
    ensures FieldsText(names, v) == FieldsText(names, w) <==> SameQuoted(v, w)
  {
    hide Quoted, FieldsText, Comma, SameQuoted;
    if names == [] {
      assert v == w;
      SameIsSameQuoted(v);
    } else {
      FieldsHead(names, v);
      FieldsHead(names, w);
      var x, y := Comma(|v|) + FieldsText(names[1..], v[1..]), Comma(|w|) + FieldsText(names[1..], w[1..]);
      FieldsBindQuoted(names[1..], v[1..], w[1..]);
      if FieldsText(names, v) == FieldsText(names, w) {
        SamePrefix(Quoted(names[0]) + [COLON], Quoted(v[0]) + x, Quoted(w[0]) + y);
        QuotedIsPrefixFree(v[0], x, w[0], y);
        SamePrefix(Comma(|v|), FieldsText(names[1..], v[1..]), FieldsText(names[1..], w[1..]));
        SameQuotedTail(v, w);
      } else if SameQuoted(v, w) {
        SameQuotedHead(v, w);
        SameQuotedTail(v, w);
      }
    }
  }

  lemma SameIsSameQuoted(v: seq<Bytes>)
    ensures SameQuoted(v, v)
  {
  }

  lemma SameQuotedHead(v: seq<Bytes>, w: seq<Bytes>)
    requires SameQuoted(v, w) && v != []
    ensures w != [] && Quoted(v[0]) == Quoted(w[0])
  {
    hide Quoted;
  }

  lemma {:induction false} ListBindsQuoted(v: seq<Bytes>, w: seq<Bytes>)
    ensures ListText(v) == ListText(w) <==> SameQuoted(v, w)
  {
    hide Quoted, ListText, SameQuoted;
    ListHead(v);
    ListHead(w);
    if v == [] || w == [] {
      EmptySameQuoted(v, w);
      assert ListText(v) == ListText(w) ==> ListText(v)[0] == ListText(w)[0];
    } else {
      var x, y := ListText(v[1..]), ListText(w[1..]);
      ListHead(v[1..]);
      ListHead(w[1..]);
      ListBindsQuoted(v[1..], w[1..]);
      if ListText(v) == ListText(w) {
        QuotedIsPrefixFree(v[0], Comma(|v|) + x, w[0], Comma(|w|) + y);
        assert (Comma(|v|) + x)[0] == (Comma(|w|) + y)[0];
        SamePrefix(Comma(|v|), x, y);
        SameQuotedTail(v, w);
      } else if SameQuoted(v, w) {
        SameQuotedHead(v, w);
        SameQuotedTail(v, w);
        SameQuotedLength(v, w);
      }
    }
  }

  lemma EmptySameQuoted(v: seq<Bytes>, w: seq<Bytes>)
    requires v == [] || w == []
    ensures SameQuoted(v, w) <==> v == w
  {
  }

  lemma SameQuotedLength(v: seq<Bytes>, w: seq<Bytes>)
    requires SameQuoted(v, w)
    ensures |v| == |w|
  {
  }

  // ---------------------------------------------------------------- every accepted claim

  function EvidenceOf(p: Platform, c: Claim): Bytes {
    NarrativeDigest(p, c.evidenceDigest, c.evidence)
  }

  function ExpectedOf(p: Platform, c: Claim): Bytes {
    NarrativeDigest(p, c.expectedDigest, c.expected)
  }

  // Two claims state the same facts as they are marshalled: the argument bytes, and every text, target
  // and narrative digest up to the replacement of bytes that are no UTF-8.
  ghost predicate SameMarshalledFacts(p: Platform, c: Claim, d: Claim)
    requires Canonical(c.runnerRefs).Ok? && Canonical(d.runnerRefs).Ok?
  {
    && ArgsOf(c) == ArgsOf(d)
    && SameQuoted(Canonical(c.runnerRefs).value, Canonical(d.runnerRefs).value)
    && Quoted(c.portalOrigin) == Quoted(d.portalOrigin) && Quoted(c.actionID) == Quoted(d.actionID)
    && Quoted(c.packRef) == Quoted(d.packRef) && Quoted(c.reason) == Quoted(d.reason)
    && Quoted(EvidenceOf(p, c)) == Quoted(EvidenceOf(p, d)) && Quoted(ExpectedOf(p, c)) == Quoted(ExpectedOf(p, d))
    && Quoted(c.operationID) == Quoted(d.operationID)
    && Quoted(c.nonce) == Quoted(d.nonce) && Quoted(c.issuedAt) == Quoted(d.issuedAt)
  }

  // A digest is ASCII, so its marshalled form tells it apart.
  lemma QuotedDigest(p: Platform, texts: set<Bytes>, s: Bytes, t: Bytes)
    requires CollisionFree(p, texts) && s in texts && t in texts
    ensures Quoted(TextSHA256(p, s)) == Quoted(TextSHA256(p, t)) <==> s == t
  {
    HexIsUtf8(p.sha256(s));
    HexIsUtf8(p.sha256(t));
    if Quoted(TextSHA256(p, s)) == Quoted(TextSHA256(p, t)) {
      QuotedIsPrefixFree(TextSHA256(p, s), [], TextSHA256(p, t), []);
      DigestIsInjective(p, texts, s, t);
    }
  }

  lemma ValuesSameQuoted(p: Platform, c: Claim, d: Claim)
    requires Canonical(c.runnerRefs).Ok? && Canonical(d.runnerRefs).Ok?
    requires CollisionFree(p, Hashed(c) + Hashed(d))
    ensures var a, b := Canonical(c.runnerRefs).value, Canonical(d.runnerRefs).value;
            SameQuoted(FieldValues(p, c, a), FieldValues(p, d, b)) <==> SameMarshalledFacts(p, c, d)
  {
    var a, b := Canonical(c.runnerRefs).value, Canonical(d.runnerRefs).value;
    var v, w := FieldValues(p, c, a), FieldValues(p, d, b);
    QuotedDigest(p, Hashed(c) + Hashed(d), ArgsOf(c), ArgsOf(d));
    QuotedDigest(p, Hashed(c) + Hashed(d), ArrayText(a), ArrayText(b));
    ListBindsQuoted(a, b);
    SameArrays(a, b);
    hide Canonical, ArgsOf, NarrativeDigest, TextSHA256, Quoted, Ascii, ArrayText, ListText, Hashed, CollisionFree;
    ThirteenSameQuoted(v, w);
  }

  lemma SameArrays(a: seq<Bytes>, b: seq<Bytes>)
    ensures ArrayText(a) == ArrayText(b) <==> ListText(a) == ListText(b)
  {
    hide ListText;
    if ArrayText(a) == ArrayText(b) {
      SamePrefix([LBRACKET], ListText(a), ListText(b));
    }
  }

  lemma ThirteenSameQuoted(v: seq<Bytes>, w: seq<Bytes>)
    requires |v| == |w| == 13
    ensures SameQuoted(v, w) <==>
              && Quoted(v[0]) == Quoted(w[0]) && Quoted(v[1]) == Quoted(w[1]) && Quoted(v[2]) == Quoted(w[2])
              && Quoted(v[3]) == Quoted(w[3]) && Quoted(v[4]) == Quoted(w[4]) && Quoted(v[5]) == Quoted(w[5])
              && Quoted(v[6]) == Quoted(w[6]) && Quoted(v[7]) == Quoted(w[7]) && Quoted(v[8]) == Quoted(w[8])
              && Quoted(v[9]) == Quoted(w[9]) && Quoted(v[10]) == Quoted(w[10])
              && Quoted(v[11]) == Quoted(w[11]) && Quoted(v[12]) == Quoted(w[12])
  {
    hide Quoted;
  }

  // Claim bytes bind exactly the marshalled facts, of every two accepted claims.
  lemma ClaimBytesBindMarshalledFacts(p: Platform, c: Claim, d: Claim)
    requires SigningBytes(p, c).Ok? && SigningBytes(p, d).Ok?
    requires CollisionFree(p, Hashed(c) + Hashed(d))
    ensures Canonical(c.runnerRefs).Ok? && Canonical(d.runnerRefs).Ok?
    ensures SigningBytes(p, c) == SigningBytes(p, d) <==> SameMarshalledFacts(p, c, d)
  {
    hide Canonical, ArgsOf, FieldValues, FieldsText, Hashed, CollisionFree, SameMarshalledFacts, SameQuoted, Ascii;
    var v := FieldValues(p, c, Canonical(c.runnerRefs).value);
    var w := FieldValues(p, d, Canonical(d.runnerRefs).value);
    FieldsBindQuoted(FIELD_NAMES, v, w);
    ValuesSameQuoted(p, c, d);
    SameStructs(FIELD_NAMES, v, w);
  }

  lemma SameStructs(names: seq<Bytes>, v: seq<Bytes>, w: seq<Bytes>)
    requires |names| == |v| == |w|
    ensures StructText(names, v) == StructText(names, w) <==> FieldsText(names, v) == FieldsText(names, w)
  {
    hide FieldsText;
    if StructText(names, v) == StructText(names, w) {
      SamePrefix([LBRACE], FieldsText(names, v), FieldsText(names, w));
    }
  }

  // ---------------------------------------------------------------- which texts are bound

  // Marshalled strings are equal if and only if their items are.
  lemma QuotedByItems(s: Bytes, t: Bytes)
    ensures Quoted(s) == Quoted(t) <==> TextItems(s) == TextItems(t)
  {
    QuotedReadsBack(s);
    QuotedReadsBack(t);
    var a, b := ItemsText(TextItems(s)), ItemsText(TextItems(t));
    if Quoted(s) == Quoted(t) {
      assert Quoted(s) == [QUOTE] + a + [QUOTE] && Quoted(t) == [QUOTE] + b + [QUOTE];
      assert a == Quoted(s)[1..|Quoted(s)| - 1] == b;
      assert a[0..|a|] == a;
      hide TextItems, Quoted;
      SameItems(a, 0, TextItems(s), TextItems(t));
    }
  }

  lemma RunesAreNoReplacement(s: Bytes)
    requires s != [] && Utf8Length(s) > 0
    ensures REPLACEMENT !in RuneItems(s[..Utf8Length(s)])
  {
  }

  // The replacement item stands for bytes that are no UTF-8, and for nothing else.
  lemma {:induction false} ReplacedIffNotUtf8(s: Bytes)
    ensures REPLACEMENT !in TextItems(s) <==> ValidUtf8(s)
    decreases |s|
  {
    hide RuneItems, Utf8Length;
    if s != [] && Utf8Length(s) > 0 {
      RunesAreNoReplacement(s);
      ReplacedIffNotUtf8(s[Utf8Length(s)..]);
    }
  }

  lemma RuneLengthIsLocal(s: Bytes, rest: Bytes)
    requires s != [] && Utf8Length(s) > 0
    ensures var n := Utf8Length(s); s[..n] + rest != [] && Utf8Length(s[..n] + rest) == n
  {
    var n := Utf8Length(s);
    var t := s[..n] + rest;
    assert forall i :: 0 <= i < n ==> t[i] == s[i];
  }

  // Every text that is no UTF-8 has a twin that is marshalled the same.
  lemma {:induction false} Twin(s: Bytes) returns (t: Bytes)
    requires !ValidUtf8(s)
    ensures t != s && |t| == |s| && TextItems(t) == TextItems(s)
    decreases |s|
  {
    var n := Utf8Length(s);
    if n == 0 {
      var b: byte := if s[0] == 0xFF then 0xFE else 0xFF;
      t := [b] + s[1..];
      assert t[1..] == s[1..] && t[0] != s[0];
    } else {
      var rest := Twin(s[n..]);
      t := s[..n] + rest;
      RuneLengthIsLocal(s, rest);
      assert t[..n] == s[..n] && t[n..] == rest && s == s[..n] + s[n..];
    }
  }

  // A text is told apart from every other text by its marshalled form if and only if it is UTF-8.
  lemma TextIsBoundIffUtf8(s: Bytes)
    ensures (forall t :: Quoted(t) == Quoted(s) ==> t == s) <==> ValidUtf8(s)
  {
    hide Quoted, TextItems, ValidUtf8;
    if ValidUtf8(s) {
      forall t: Bytes | Quoted(t) == Quoted(s) ensures t == s {
        QuotedByItems(t, s);
        ReplacedIffNotUtf8(s);
        ReplacedIffNotUtf8(t);
        QuotedReadsBack(s);
        QuotedReadsBack(t);
      }
    } else {
      var t := Twin(s);
      QuotedByItems(t, s);
    }
  }

  // The texts a claim carries as they are.
  datatype TextField = ActionID | PackRef | Reason | OperationID | PortalOrigin | Nonce | IssuedAt

  function TextOf(c: Claim, f: TextField): Bytes {
    match f
    case ActionID => c.actionID
    case PackRef => c.packRef
    case Reason => c.reason
    case OperationID => c.operationID
    case PortalOrigin => c.portalOrigin
    case Nonce => c.nonce
    case IssuedAt => c.issuedAt
  }

  function WithText(c: Claim, f: TextField, t: Bytes): Claim {
    match f
    case ActionID => c.(actionID := t)
    case PackRef => c.(packRef := t)
    case Reason => c.(reason := t)
    case OperationID => c.(operationID := t)
    case PortalOrigin => c.(portalOrigin := t)
    case Nonce => c.(nonce := t)
    case IssuedAt => c.(issuedAt := t)
  }

  function Slot(f: TextField): (i: nat)
    ensures i < 13
  {
    match f
    case PortalOrigin => 2
    case ActionID => 3
    case PackRef => 4
    case Reason => 7
    case OperationID => 10
    case Nonce => 11
    case IssuedAt => 12
  }

  lemma TextIsOneField(p: Platform, c: Claim, refs: seq<Bytes>, f: TextField, t: Bytes)
    ensures FieldValues(p, WithText(c, f, t), refs) == FieldValues(p, c, refs)[Slot(f) := t]
    ensures FieldValues(p, c, refs)[Slot(f)] == TextOf(c, f)
  {
  }

  // Another text in one field of a claim changes the bytes unless it is marshalled the same.
  lemma OneTextChanges(p: Platform, c: Claim, f: TextField, t: Bytes)
    requires SigningBytes(p, c).Ok?
    ensures SigningBytes(p, WithText(c, f, t)) == SigningBytes(p, c) <==> Quoted(t) == Quoted(TextOf(c, f))
  {
    hide *;
    SignsValues(p, c);
    var refs := Canonical(c.runnerRefs).value;
    var v := FieldValues(p, c, refs);
    WithTextSigns(p, c, f, t);
    TextIsOneField(p, c, refs, f, t);
    ThirteenNames();
    FieldsBindQuoted(FIELD_NAMES, v[Slot(f) := t], v);
    SameStructs(FIELD_NAMES, v[Slot(f) := t], v);
    OneSameQuoted(v, Slot(f), t);
  }

  lemma ThirteenNames()
    ensures |FIELD_NAMES| == 13
  {
    hide Ascii;
  }

  lemma SignsValues(p: Platform, c: Claim)
    requires SigningBytes(p, c).Ok?
    ensures Canonical(c.runnerRefs).Ok? && |FIELD_NAMES| == 13
    ensures SigningBytes(p, c) == Ok(StructText(FIELD_NAMES, FieldValues(p, c, Canonical(c.runnerRefs).value)))
  {
    hide Ascii, Canonical, StructText, FieldValues;
  }

  lemma WithTextSigns(p: Platform, c: Claim, f: TextField, t: Bytes)
    requires SigningBytes(p, c).Ok? && Canonical(c.runnerRefs).Ok?
    ensures |FIELD_NAMES| == 13
    ensures SigningBytes(p, WithText(c, f, t)) ==
            Ok(StructText(FIELD_NAMES, FieldValues(p, WithText(c, f, t), Canonical(c.runnerRefs).value)))
  {
    hide Ascii, Canonical, StructText, FieldValues;
  }

  lemma OneSameQuoted(v: seq<Bytes>, i: nat, t: Bytes)
    requires i < |v|
    ensures SameQuoted(v[i := t], v) <==> Quoted(t) == Quoted(v[i])
  {
    hide Quoted;
    assert v[i := t][i] == t;
  }

  // The claim bytes bind a text, against every other text, if and only if it is UTF-8.
  lemma OnlyUtf8IsBound(p: Platform, c: Claim, f: TextField)
    requires SigningBytes(p, c).Ok?
    ensures (forall t :: SigningBytes(p, WithText(c, f, t)) == SigningBytes(p, c) ==> t == TextOf(c, f))
            <==> ValidUtf8(TextOf(c, f))
  {
    hide *;
    var s := TextOf(c, f);
    TextIsBoundIffUtf8(s);
    forall t: Bytes
      ensures SigningBytes(p, WithText(c, f, t)) == SigningBytes(p, c) <==> Quoted(t) == Quoted(s)
    {
      OneTextChanges(p, c, f, t);
    }
  }
}
