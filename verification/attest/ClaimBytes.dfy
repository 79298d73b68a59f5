// The claim bytes of mcp/internal/attest/attest.go: which facts a signature binds.

module ClaimBytes {
  import opened ByteSeqs
  import opened ByteText
  import opened JsonGrammar
  import opened Results
  import opened StrictJsonProofs
  import opened StrictParser
  import opened Options

  const MAX_RUNNER_REFS: nat := 16
  const MAX_RUNNER_REF_BYTES: nat := 113

  const VERSION := Ascii("emisar-attestation-v5")
  const TOOL := Ascii("run_action")

  datatype Claim = Claim(
    actionID: Bytes,
    packRef: Bytes,
    argsRaw: Bytes,
    runnerRefs: seq<Bytes>,
    reason: Bytes,
    evidence: Bytes,
    expected: Bytes,
    evidenceDigest: Bytes,
    expectedDigest: Bytes,
    operationID: Bytes,
    portalOrigin: Bytes,
    nonce: Bytes,
    issuedAt: Bytes)

  datatype ClaimError = BadArgs | NoRefs | TooManyRefs | EmptyRef | LongRef | DuplicateRef

  // SHA-256, and whether json.Valid takes a text that starts with an opening brace.
  datatype Platform = Platform(sha256: Bytes -> Bytes, isObject: Bytes -> bool)

  ghost predicate IsDigest(p: Platform) {
    forall s: Bytes :: |p.sha256(s)| == 32
  }

  // ---------------------------------------------------------------- runner refs

  // The first fault in a sorted list of refs, at or after position i.
  function FirstFault(refs: seq<Bytes>, i: nat): Option<ClaimError>
    decreases |refs| - i
  {
    if i >= |refs| then None
    else if refs[i] == [] then Some(EmptyRef)
    else if |refs[i]| > MAX_RUNNER_REF_BYTES then Some(LongRef)
    else if i > 0 && refs[i] == refs[i - 1] then Some(DuplicateRef)
    else FirstFault(refs, i + 1)
  }

  function Canonical(refs: seq<Bytes>): Result<seq<Bytes>, ClaimError> {
    if refs == [] then Refused(NoRefs)
    else if |refs| > MAX_RUNNER_REFS then Refused(TooManyRefs)
    else match FirstFault(Sort(refs), 0)
      case Some(fault) => Refused(fault)
      case None => Ok(Sort(refs))
  }

  method CanonicalRunnerRefs(refs: seq<Bytes>) returns (r: Result<seq<Bytes>, ClaimError>)
    ensures r == Canonical(refs)
  {
    if |refs| == 0 {
      return Refused(NoRefs);
    }
    if |refs| > MAX_RUNNER_REFS {
      return Refused(TooManyRefs);
    }
    var canonical := Sort(refs);
    for i := 0 to |canonical|
      invariant FirstFault(canonical, i) == FirstFault(canonical, 0)
    {
      var ref := canonical[i];
      if ref == [] {
        return Refused(EmptyRef);
      }
      if |ref| > MAX_RUNNER_REF_BYTES {
        return Refused(LongRef);
      }
      if i > 0 && ref == canonical[i - 1] {
        return Refused(DuplicateRef);
      }
    }
    return Ok(canonical);
  }

  ghost predicate GoodRefs(refs: seq<Bytes>) {
    && 1 <= |refs| <= 16
    && (forall r <- refs :: 1 <= |r| <= 113)
    && Distinct(refs)
  }

  lemma {:induction false} FaultlessFrom(refs: seq<Bytes>, i: nat)
    requires i <= |refs|
    ensures FirstFault(refs, i).None? <==>
              forall j :: i <= j < |refs| ==>
                1 <= |refs[j]| <= MAX_RUNNER_REF_BYTES && (j > 0 ==> refs[j] != refs[j - 1])
    decreases |refs| - i
  {
    if i < |refs| {
      FaultlessFrom(refs, i + 1);
    }
  }

  // Among sorted strings, equal ones stand next to each other.
  lemma SortedDistinct(s: seq<Bytes>)
    requires Sorted(s) && forall j :: 0 < j < |s| ==> s[j] != s[j - 1]
    ensures Distinct(s)
  {
    forall i, j | 0 <= i < j < |s| ensures s[i] != s[j] {
      BeforeIsTotal(s[i], s[i + 1]);
      assert s[i + 1] != s[i + 1 - 1];
    }
  }

  lemma {:induction false} DistinctBag(s: seq<Bytes>)
    requires Distinct(s)
    ensures multiset(s) == multiset(set r <- s)
  {
    if s == [] {
    } else {
      DistinctBag(s[1..]);
      assert s == [s[0]] + s[1..];
      assert s[0] !in s[1..];
      assert (set r <- s) == (set r <- s[1..]) + {s[0]};
    }
  }

  lemma TwiceInBag(s: seq<Bytes>, i: nat, j: nat)
    requires i < j < |s| && s[i] == s[j]
    ensures multiset(s)[s[i]] >= 2
  {
    assert s == s[..j] + [s[j]] + s[j + 1..];
    assert s[..j][i] == s[i];
  }

  lemma SameBagDistinct(a: seq<Bytes>, b: seq<Bytes>)
    requires multiset(a) == multiset(b) && Distinct(a)
    ensures Distinct(b)
  {
    DistinctBag(a);
    forall i, j | 0 <= i < j < |b| ensures b[i] != b[j] {
      if b[i] == b[j] {
        TwiceInBag(b, i, j);
      }
    }
  }

  lemma SameBagGood(a: seq<Bytes>, b: seq<Bytes>)
    requires multiset(a) == multiset(b) && GoodRefs(a)
    ensures GoodRefs(b)
  {
    assert |multiset(a)| == |a| && |multiset(b)| == |b|;
    SameBagDistinct(a, b);
    forall r <- b ensures 1 <= |r| <= MAX_RUNNER_REF_BYTES {
      assert r in multiset(b);
      assert r in multiset(a);
    }
  }

  lemma SortedGood(s: seq<Bytes>)
    requires Sorted(s) && 1 <= |s| <= MAX_RUNNER_REFS
    ensures FirstFault(s, 0).None? <==> GoodRefs(s)
  {
    FaultlessFrom(s, 0);
    if FirstFault(s, 0).None? {
      SortedDistinct(s);
    }
  }

  // The refs are refused exactly when they are no usable target set; otherwise their order is forgotten.
  lemma RefsAreASet(refs: seq<Bytes>)
    ensures Canonical(refs).Ok? <==> GoodRefs(refs)
    ensures Canonical(refs).Ok? ==>
              var c := Canonical(refs).value; Sorted(c) && multiset(c) == multiset(refs) && Distinct(c)
  {
    var s := Sort(refs);
    SortSorts(refs);
    assert |multiset(s)| == |s| && |multiset(refs)| == |refs|;
    hide Sorted, FirstFault;
    if 1 <= |s| <= MAX_RUNNER_REFS {
      SortedGood(s);
      if GoodRefs(s) {
        SameBagGood(s, refs);
      } else if GoodRefs(refs) {
        SameBagGood(refs, s);
      }
    }
  }

  lemma {:induction false} FaultIsReal(refs: seq<Bytes>, i: nat)
    requires FirstFault(refs, i).Some?
    ensures match FirstFault(refs, i).value
            case EmptyRef => [] in refs
            case LongRef => exists r <- refs :: |r| > 113
            case DuplicateRef => exists j :: 0 < j < |refs| && refs[j] == refs[j - 1]
            case _ => false
    decreases |refs| - i
  {
    if !(refs[i] == []) && |refs[i]| <= MAX_RUNNER_REF_BYTES && !(i > 0 && refs[i] == refs[i - 1]) {
      FaultIsReal(refs, i + 1);
    }
  }

  lemma EmptySortsFirst(s: seq<Bytes>)
    requires Sorted(s) && [] in s
    ensures s[0] == []
  {
    var i :| 0 <= i < |s| && s[i] == [];
    if i > 0 {
      assert !Before(s[i], s[0]);
    }
  }

  // Each refusal says what is wrong with the refs.
  lemma RefusalsAreTrue(refs: seq<Bytes>)
    ensures Canonical(refs) == Refused(NoRefs) <==> refs == []
    ensures Canonical(refs) == Refused(TooManyRefs) <==> |refs| > 16
    ensures 1 <= |refs| <= 16 ==> (Canonical(refs) == Refused(EmptyRef) <==> [] in refs)
    ensures Canonical(refs) == Refused(LongRef) ==> exists r <- refs :: |r| > 113
    ensures Canonical(refs) == Refused(DuplicateRef) ==> !Distinct(refs)
    ensures Canonical(refs) != Refused(BadArgs)
  {
    var s := Sort(refs);
    SortSorts(refs);
    assert |multiset(s)| == |s| && |multiset(refs)| == |refs|;
    forall r: Bytes ensures r in s <==> r in refs {
      assert r in multiset(s) <==> r in multiset(refs);
    }
    if FirstFault(s, 0).Some? {
      FaultIsReal(s, 0);
      if FirstFault(s, 0).value.DuplicateRef? && Distinct(refs) {
        SameBagDistinct(refs, s);
      }
    }
    if [] in s {
      EmptySortsFirst(s);
    }
  }

  // Two accepted lists have the same canonical form exactly when they name the same targets.
  lemma CanonicalIffSameTargets(a: seq<Bytes>, b: seq<Bytes>)
    requires GoodRefs(a) && GoodRefs(b)
    ensures Canonical(a).Ok? && Canonical(b).Ok?
    ensures Canonical(a) == Canonical(b) <==> (set r <- a) == (set r <- b)
  {
    RefsAreASet(a);
    RefsAreASet(b);
    DistinctBag(a);
    DistinctBag(b);
    hide Canonical, GoodRefs, Sorted;
    if (set r <- a) == (set r <- b) {
      SortedIsUnique(Canonical(a).value, Canonical(b).value);
    } else if Canonical(a) == Canonical(b) {
      BagsOfSets(set r <- a, set r <- b);
    }
  }

  lemma BagsOfSets(a: set<Bytes>, b: set<Bytes>)
    requires multiset(a) == multiset(b)
    ensures a == b
  {
    forall x ensures x in a <==> x in b {
      assert x in a <==> x in multiset(a);
      assert x in b <==> x in multiset(b);
    }
  }

  // Permuting the refs never changes what is made of them, accepted or refused.
  lemma OrderOfRefsIsForgotten(a: seq<Bytes>, b: seq<Bytes>)
    requires multiset(a) == multiset(b)
    ensures Canonical(a) == Canonical(b)
  {
    SortSorts(a);
    SortSorts(b);
    SortedIsUnique(Sort(a), Sort(b));
    assert |multiset(a)| == |a| && |multiset(b)| == |b|;
  }

  // ---------------------------------------------------------------- json.Marshal of a string

  function LowerHex(n: nat): byte
    requires n < 16
  {
    if n < 10 then ZERO + n else LOWER_A + (n - 10)
  }

  // Quotes, backslashes and controls are escaped, and so are the characters HTML gives a meaning.
  function AsciiItem(b: byte): Item {
    if b == QUOTE || b == BACKSLASH then Short(b)
    else if b == 0x08 then Short(LOWER_B)
    else if b == 0x0C then Short(LOWER_F)
    else if b == LF then Short(LOWER_N)
    else if b == CR then Short(LOWER_R)
    else if b == TAB then Short(LOWER_T)
    else if b < 0x20 || b == 0x3C || b == 0x3E || b == 0x26 then
      Unicode([ZERO, ZERO, LowerHex(b / 16), LowerHex(b % 16)])
    else Plain(b)
  }

  const LINE_SEPARATOR: Bytes := [0xE2, 0x80, 0xA8]
  const PARAGRAPH_SEPARATOR: Bytes := [0xE2, 0x80, 0xA9]
  const REPLACEMENT: Item := Unicode([LOWER_F, LOWER_F, LOWER_F, 0x64])

  function RuneItems(rune: Bytes): seq<Item> {
    if |rune| == 1 then [AsciiItem(rune[0])]
    else if rune == LINE_SEPARATOR then [Unicode([0x32, ZERO, 0x32, 0x38])]
    else if rune == PARAGRAPH_SEPARATOR then [Unicode([0x32, ZERO, 0x32, 0x39])]
    else seq(|rune|, i requires 0 <= i < |rune| => Plain(rune[i]))
  }

  // Bytes that are no UTF-8 come out as the replacement character.
  function TextItems(s: Bytes): seq<Item> {
    if s == [] then []
    else if Utf8Length(s) == 0 then [REPLACEMENT] + TextItems(s[1..])
    else RuneItems(s[..Utf8Length(s)]) + TextItems(s[Utf8Length(s)..])
  }

  function Quoted(s: Bytes): Bytes {
    StringText(TextItems(s))
  }

  lemma {:induction false} ValueConcat(a: seq<Item>, b: seq<Item>)
    requires ItemsOk(a) && ItemsOk(b)
    ensures ItemsOk(a + b) && ItemsValue(a + b) == ItemsValue(a) + ItemsValue(b)
  {
    hide ItemOk, ItemValue;
    if a == [] {
      assert a + b == b;
    } else {
      ValueConcat(a[1..], b);
      assert (a + b)[1..] == a[1..] + b && (a + b)[0] == a[0];
      assert ItemValue(a[0]) + (ItemsValue(a[1..]) + ItemsValue(b)) == ItemsValue(a) + ItemsValue(b);
    }
  }

  lemma AsciiItemFacts(b: byte)
    requires b < 0x80
    ensures ItemOk(AsciiItem(b)) && ItemValue(AsciiItem(b)) == [b]
  {
  }

  lemma {:induction false} PlainItems(items: seq<Item>, rune: Bytes)
    requires |items| == |rune|
    requires forall i :: 0 <= i < |rune| ==> items[i] == Plain(rune[i]) && rune[i] >= 0x80
    ensures ItemsOk(items) && ItemsValue(items) == rune
  {
    if rune != [] {
      PlainItems(items[1..], rune[1..]);
      assert rune == [rune[0]] + rune[1..];
    }
  }

  lemma RuneItemsFacts(s: Bytes)
    requires s != [] && Utf8Length(s) > 0
    ensures var rune := s[..Utf8Length(s)]; ItemsOk(RuneItems(rune)) && ItemsValue(RuneItems(rune)) == rune
  {
    var rune := s[..Utf8Length(s)];
    if |rune| == 1 {
      AsciiItemFacts(rune[0]);
      assert RuneItems(rune)[1..] == [];
    } else if rune == LINE_SEPARATOR || rune == PARAGRAPH_SEPARATOR {
      var item := RuneItems(rune)[0];
      assert QuadValue(item.digits) == if rune == LINE_SEPARATOR then 0x2028 else 0x2029;
      assert RuneItems(rune)[1..] == [];
    } else {
      PlainItems(RuneItems(rune), rune);
    }
  }

  lemma ReplacementOk()
    ensures ItemsOk([REPLACEMENT])
  {
  }

  // Marshalling a string writes a JSON string that reads back as it, if it is UTF-8.
  lemma {:induction false} QuotedReadsBack(s: Bytes)
    ensures ItemsOk(TextItems(s))
    ensures ValidUtf8(s) ==> ItemsValue(TextItems(s)) == s
  {
    hide ItemOk, ItemValue, RuneItems, Utf8Length;
    if s != [] {
      var n := Utf8Length(s);
      if n == 0 {
        QuotedReadsBack(s[1..]);
        ReplacementOk();
        ValueConcat([REPLACEMENT], TextItems(s[1..]));
      } else {
        QuotedReadsBack(s[n..]);
        RuneItemsFacts(s);
        ValueConcat(RuneItems(s[..n]), TextItems(s[n..]));
        assert s == s[..n] + s[n..];
      }
    }
  }

  // A marshalled string ends where it ends, whatever follows it.
  lemma QuotedIsPrefixFree(a: Bytes, x: Bytes, b: Bytes, y: Bytes)
    requires Quoted(a) + x == Quoted(b) + y
    ensures Quoted(a) == Quoted(b) && x == y
    ensures ValidUtf8(a) && ValidUtf8(b) ==> a == b
  {
    QuotedEnds(a, x);
    QuotedEnds(b, y);
    var n := |Quoted(a)|;
    assert (Quoted(a) + x)[..n] == Quoted(a) && (Quoted(b) + y)[..n] == Quoted(b);
    assert (Quoted(a) + x)[n..] == x && (Quoted(b) + y)[n..] == y;
    QuotedReadsBack(a);
    QuotedReadsBack(b);
    UnquoteText(TextItems(a));
    UnquoteText(TextItems(b));
    assert Quoted(a)[1..n - 1] == ItemsText(TextItems(a));
    assert Quoted(b)[1..n - 1] == ItemsText(TextItems(b));
  }

  lemma QuotedEnds(a: Bytes, x: Bytes)
    ensures |Quoted(a)| >= 2 && StringEnd(Quoted(a) + x, 1) == Some(|Quoted(a)|)
  {
    QuotedReadsBack(a);
    var d, t := Quoted(a) + x, ItemsText(TextItems(a));
    assert d[1..1 + |t|] == t;
    StringComplete(d, 1, TextItems(a));
  }

  // ---------------------------------------------------------------- objects and arrays of strings

  // The separator before what follows the first of `left` items.
  function Comma(left: nat): Bytes {
    if left <= 1 then [] else [COMMA]
  }

  // The members of a marshalled struct of strings, up to the closing brace.
  function FieldsText(names: seq<Bytes>, values: seq<Bytes>): Bytes
    requires |names| == |values|
  {
    if names == [] then [RBRACE]
    else
      Quoted(names[0]) + [COLON] + Quoted(values[0])
      + Comma(|names|) + FieldsText(names[1..], values[1..])
  }

  function StructText(names: seq<Bytes>, values: seq<Bytes>): Bytes
    requires |names| == |values|
  {
    [LBRACE] + FieldsText(names, values)
  }

  function ListText(values: seq<Bytes>): Bytes {
    if values == [] then [RBRACKET]
    else Quoted(values[0]) + (Comma(|values|) + ListText(values[1..]))
  }

  function ArrayText(values: seq<Bytes>): Bytes {
    [LBRACKET] + ListText(values)
  }

  ghost predicate AllUtf8(values: seq<Bytes>) {
    forall v <- values :: ValidUtf8(v)
  }

  lemma FieldsHead(names: seq<Bytes>, v: seq<Bytes>)
    requires |names| == |v| > 0
    ensures FieldsText(names, v) ==
            Quoted(names[0]) + [COLON] + (Quoted(v[0]) + (Comma(|v|) + FieldsText(names[1..], v[1..])))
  {
    hide Quoted;
  }

  lemma {:induction false} FieldsAreInjective(names: seq<Bytes>, v: seq<Bytes>, w: seq<Bytes>)
    requires |names| == |v| == |w| && AllUtf8(v) && AllUtf8(w)
    requires FieldsText(names, v) == FieldsText(names, w)
    ensures v == w
  {
    if names != [] {
      hide Quoted, ValidUtf8, FieldsText, Comma;
      FieldsHead(names, v);
      FieldsHead(names, w);
      var x, y := Comma(|v|) + FieldsText(names[1..], v[1..]), Comma(|w|) + FieldsText(names[1..], w[1..]);
      SamePrefix(Quoted(names[0]) + [COLON], Quoted(v[0]) + x, Quoted(w[0]) + y);
      QuotedIsPrefixFree(v[0], x, w[0], y);
      SamePrefix(Comma(|v|), FieldsText(names[1..], v[1..]), FieldsText(names[1..], w[1..]));
      FieldsAreInjective(names[1..], v[1..], w[1..]);
      assert v == [v[0]] + v[1..] && w == [w[0]] + w[1..];
    }
  }

  lemma SamePrefix(a: Bytes, x: Bytes, y: Bytes)
    requires a + x == a + y
    ensures x == y
  {
    assert (a + x)[|a|..] == x && (a + y)[|a|..] == y;
  }

  lemma ListHead(v: seq<Bytes>)
    ensures ListText(v) != []
    ensures ListText(v)[0] == if v == [] then RBRACKET else QUOTE
    ensures v != [] ==> ListText(v) == Quoted(v[0]) + (Comma(|v|) + ListText(v[1..]))
  {
  }

  lemma {:induction false} ListIsInjective(v: seq<Bytes>, w: seq<Bytes>)
    requires AllUtf8(v) && AllUtf8(w) && ListText(v) == ListText(w)
    ensures v == w
  {
    hide Quoted, ValidUtf8, ListText;
    ListHead(v);
    ListHead(w);
    if v != [] {
      var x, y := ListText(v[1..]), ListText(w[1..]);
      ListHead(v[1..]);
      ListHead(w[1..]);
      QuotedIsPrefixFree(v[0], Comma(|v|) + x, w[0], Comma(|w|) + y);
      assert (Comma(|v|) + x)[0] == (Comma(|w|) + y)[0];
      SamePrefix(Comma(|v|), x, y);
      ListIsInjective(v[1..], w[1..]);
      assert v == [v[0]] + v[1..] && w == [w[0]] + w[1..];
    }
  }

  // ---------------------------------------------------------------- digests

  function HexText(s: Bytes): Bytes {
    if s == [] then [] else [LowerHex(s[0] / 16), LowerHex(s[0] % 16)] + HexText(s[1..])
  }

  lemma {:induction false} HexIsInjective(a: Bytes, b: Bytes)
    requires HexText(a) == HexText(b)
    ensures a == b
  {
    if a != [] && b != [] {
      var x, y := HexText(a), HexText(b);
      assert x[0] == LowerHex(a[0] / 16) && x[1] == LowerHex(a[0] % 16) && x[2..] == HexText(a[1..]);
      assert y[0] == LowerHex(b[0] / 16) && y[1] == LowerHex(b[0] % 16) && y[2..] == HexText(b[1..]);
      assert a[0] / 16 == b[0] / 16 && a[0] % 16 == b[0] % 16;
      HexIsInjective(a[1..], b[1..]);
      assert a == [a[0]] + a[1..] && b == [b[0]] + b[1..];
    }
  }

  lemma {:induction false} HexIsUtf8(s: Bytes)
    ensures ValidUtf8(HexText(s))
  {
    if s != [] {
      HexIsUtf8(s[1..]);
      var t := HexText(s);
      assert t[1..][1..] == HexText(s[1..]);
    }
  }

  function TextSHA256(p: Platform, s: Bytes): Bytes {
    HexText(p.sha256(s))
  }

  function NarrativeDigest(p: Platform, digest: Bytes, text: Bytes): Bytes {
    if digest != [] then digest else TextSHA256(p, text)
  }

  // ---------------------------------------------------------------- the claim

  const NO_ARGS: Bytes := [LBRACE, RBRACE]

  function ArgsOf(c: Claim): Bytes {
    if c.argsRaw == [] then NO_ARGS else c.argsRaw
  }

  const FIELD_NAMES: seq<Bytes> := [
    Ascii("version"), Ascii("tool"), Ascii("portal_origin"), Ascii("action_id"), Ascii("pack_ref"),
    Ascii("args_sha256"), Ascii("runner_refs_sha256"), Ascii("reason"), Ascii("evidence_sha256"),
    Ascii("expected_sha256"), Ascii("operation_id"), Ascii("nonce"), Ascii("issued_at")
  ]

  function FieldValues(p: Platform, c: Claim, refs: seq<Bytes>): (r: seq<Bytes>)
    ensures |r| == 13
  {
    [VERSION, TOOL, c.portalOrigin, c.actionID, c.packRef,
     TextSHA256(p, ArgsOf(c)), TextSHA256(p, ArrayText(refs)), c.reason,
     NarrativeDigest(p, c.evidenceDigest, c.evidence), NarrativeDigest(p, c.expectedDigest, c.expected),
     c.operationID, c.nonce, c.issuedAt]
  }

  function SigningBytes(p: Platform, c: Claim): Result<Bytes, ClaimError> {
    if !p.isObject(ArgsOf(c)) then Refused(BadArgs)
    else match Canonical(c.runnerRefs)
      case Refused(e) => Refused(e)
      case Ok(refs) => Ok(StructText(FIELD_NAMES, FieldValues(p, c, refs)))
  }

  // What a signature says: every fact, with the targets as a set and the narratives by digest.
  datatype Facts = Facts(
    actionID: Bytes, packRef: Bytes, args: Bytes, targets: set<Bytes>, reason: Bytes,
    evidence: Bytes, expected: Bytes, operationID: Bytes, portalOrigin: Bytes, nonce: Bytes, issuedAt: Bytes)

  ghost function FactsOf(p: Platform, c: Claim): Facts {
    Facts(c.actionID, c.packRef, ArgsOf(c), (set r <- c.runnerRefs), c.reason,
          NarrativeDigest(p, c.evidenceDigest, c.evidence), NarrativeDigest(p, c.expectedDigest, c.expected),
          c.operationID, c.portalOrigin, c.nonce, c.issuedAt)
  }

  ghost predicate FieldsAreUtf8(c: Claim) {
    && ValidUtf8(c.actionID) && ValidUtf8(c.packRef) && ValidUtf8(c.reason) && ValidUtf8(c.operationID)
    && ValidUtf8(c.portalOrigin) && ValidUtf8(c.nonce) && ValidUtf8(c.issuedAt)
    && ValidUtf8(c.evidenceDigest) && ValidUtf8(c.expectedDigest) && AllUtf8(c.runnerRefs)
  }

  // What signing a claim hashes.
  ghost function Hashed(c: Claim): set<Bytes> {
    {ArgsOf(c), c.evidence, c.expected}
    + if Canonical(c.runnerRefs).Ok? then {ArrayText(Canonical(c.runnerRefs).value)} else {}
  }

  // SHA-256 has no collision among the texts that were hashed.
  ghost predicate CollisionFree(p: Platform, texts: set<Bytes>) {
    forall s <- texts, t <- texts :: p.sha256(s) == p.sha256(t) ==> s == t
  }

  lemma DigestIsInjective(p: Platform, texts: set<Bytes>, s: Bytes, t: Bytes)
    requires CollisionFree(p, texts) && s in texts && t in texts && TextSHA256(p, s) == TextSHA256(p, t)
    ensures s == t
  {
    HexIsInjective(p.sha256(s), p.sha256(t));
  }

  lemma {:induction false} AsciiIsUtf8(s: Bytes)
    requires forall i :: 0 <= i < |s| ==> s[i] < 0x80
    ensures ValidUtf8(s)
  {
    if s != [] {
      AsciiIsUtf8(s[1..]);
    }
  }

  lemma DigestsAreUtf8(p: Platform, text: Bytes, given: Bytes)
    requires ValidUtf8(given)
    ensures ValidUtf8(TextSHA256(p, text)) && ValidUtf8(NarrativeDigest(p, given, text))
  {
    HexIsUtf8(p.sha256(text));
  }

  lemma ConstantsAreUtf8()
    ensures ValidUtf8(VERSION) && ValidUtf8(TOOL)
  {
    AsciiIsUtf8(VERSION);
    AsciiIsUtf8(TOOL);
  }

  lemma ValuesAreUtf8(p: Platform, c: Claim, refs: seq<Bytes>)
    requires FieldsAreUtf8(c)
    ensures AllUtf8(FieldValues(p, c, refs))
  {
    ConstantsAreUtf8();
    hide ValidUtf8, ArrayText, Ascii, TextSHA256, NarrativeDigest, ArgsOf, AllUtf8;
    DigestsAreUtf8(p, ArgsOf(c), c.evidenceDigest);
    DigestsAreUtf8(p, ArrayText(refs), c.evidenceDigest);
    DigestsAreUtf8(p, c.evidence, c.evidenceDigest);
    DigestsAreUtf8(p, c.expected, c.expectedDigest);
    EachUtf8(FieldValues(p, c, refs));
  }

  lemma EachUtf8(v: seq<Bytes>)
    requires |v| == 13 && ValidUtf8(v[0]) && ValidUtf8(v[1]) && ValidUtf8(v[2]) && ValidUtf8(v[3]) && ValidUtf8(v[4])
    requires ValidUtf8(v[5]) && ValidUtf8(v[6]) && ValidUtf8(v[7]) && ValidUtf8(v[8]) && ValidUtf8(v[9])
    requires ValidUtf8(v[10]) && ValidUtf8(v[11]) && ValidUtf8(v[12])
    ensures AllUtf8(v)
  {
  }

  lemma RefsAreUtf8(refs: seq<Bytes>)
    requires AllUtf8(refs) && Canonical(refs).Ok?
    ensures AllUtf8(Canonical(refs).value)
  {
    RefsAreASet(refs);
    forall r <- Canonical(refs).value ensures ValidUtf8(r) {
      assert r in multiset(Canonical(refs).value);
      assert r in multiset(refs);
    }
  }

  // Claim bytes bind exactly the facts: two accepted claims have the same bytes if and only if
  // every fact agrees.
  lemma ClaimBytesBindFacts(p: Platform, c: Claim, d: Claim)
    requires SigningBytes(p, c).Ok? && SigningBytes(p, d).Ok?
    requires FieldsAreUtf8(c) && FieldsAreUtf8(d)
    requires CollisionFree(p, Hashed(c) + Hashed(d))
    ensures SigningBytes(p, c) == SigningBytes(p, d) <==> FactsOf(p, c) == FactsOf(p, d)
  {
    var a, b := Canonical(c.runnerRefs).value, Canonical(d.runnerRefs).value;
    var v, w := FieldValues(p, c, a), FieldValues(p, d, b);
    RefsAreASet(c.runnerRefs);
    RefsAreASet(d.runnerRefs);
    CanonicalIffSameTargets(c.runnerRefs, d.runnerRefs);
    hide Ascii, Canonical, FieldsText, ArrayText, ArgsOf, NarrativeDigest, TextSHA256, FieldsAreUtf8, AllUtf8, GoodRefs;
    if StructText(FIELD_NAMES, v) == StructText(FIELD_NAMES, w) {
      ValuesAreUtf8(p, c, a);
      ValuesAreUtf8(p, d, b);
      SamePrefix([LBRACE], FieldsText(FIELD_NAMES, v), FieldsText(FIELD_NAMES, w));
      FieldsAreInjective(FIELD_NAMES, v, w);
      assert v[2] == w[2] && v[3] == w[3] && v[4] == w[4] && v[5] == w[5] && v[6] == w[6] && v[7] == w[7];
      assert v[8] == w[8] && v[9] == w[9] && v[10] == w[10] && v[11] == w[11] && v[12] == w[12];
      DigestIsInjective(p, Hashed(c) + Hashed(d), ArgsOf(c), ArgsOf(d));
      DigestIsInjective(p, Hashed(c) + Hashed(d), ArrayText(a), ArrayText(b));
      ArrayIsInjective(c, d);
    }
  }

  lemma ArrayIsInjective(c: Claim, d: Claim)
    requires FieldsAreUtf8(c) && FieldsAreUtf8(d) && Canonical(c.runnerRefs).Ok? && Canonical(d.runnerRefs).Ok?
    requires ArrayText(Canonical(c.runnerRefs).value) == ArrayText(Canonical(d.runnerRefs).value)
    ensures Canonical(c.runnerRefs) == Canonical(d.runnerRefs)
  {
    hide Canonical, ListText;
    RefsAreUtf8(c.runnerRefs);
    RefsAreUtf8(d.runnerRefs);
    var a, b := Canonical(c.runnerRefs).value, Canonical(d.runnerRefs).value;
    SamePrefix([LBRACKET], ListText(a), ListText(b));
    ListIsInjective(a, b);
  }

  // Two signers that hold the narrative text sign the same bytes only for the same text.
  lemma SignersBindNarratives(p: Platform, c: Claim, d: Claim)
    requires SigningBytes(p, c).Ok? && SigningBytes(p, c) == SigningBytes(p, d)
    requires FieldsAreUtf8(c) && FieldsAreUtf8(d)
    requires CollisionFree(p, Hashed(c) + Hashed(d))
    requires c.evidenceDigest == [] && d.evidenceDigest == [] && c.expectedDigest == [] && d.expectedDigest == []
    ensures c.evidence == d.evidence && c.expected == d.expected
  {
    ClaimBytesBindFacts(p, c, d);
    hide SigningBytes, Canonical;
    DigestIsInjective(p, Hashed(c) + Hashed(d), c.evidence, d.evidence);
    DigestIsInjective(p, Hashed(c) + Hashed(d), c.expected, d.expected);
  }

  // A verifier holds the digests and no text; it makes the same bytes the signer made, from the
  // refs in any order.
  lemma VerifierMakesTheSameBytes(p: Platform, signed: Claim, refs: seq<Bytes>, evidence: Bytes, expected: Bytes)
    requires IsDigest(p) && multiset(refs) == multiset(signed.runnerRefs)
    ensures var held := signed.(
              runnerRefs := refs, evidence := evidence, expected := expected,
              evidenceDigest := NarrativeDigest(p, signed.evidenceDigest, signed.evidence),
              expectedDigest := NarrativeDigest(p, signed.expectedDigest, signed.expected));
            SigningBytes(p, held) == SigningBytes(p, signed)
  {
    OrderOfRefsIsForgotten(refs, signed.runnerRefs);
    assert |p.sha256(signed.evidence)| == 32 && |p.sha256(signed.expected)| == 32;
    hide Canonical, StructText, Ascii;
  }
}
