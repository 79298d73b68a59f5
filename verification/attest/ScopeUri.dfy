// EncodeScopeURI and ParseScopeURI of mcp/internal/attest/attest.go: the methods follow the source
// statement by statement; the functions say what they compute without naming an iteration order.

module ScopeUri {
  import opened ByteSeqs
  import opened ByteText
  import opened JsonGrammar
  import opened Results

  const SCOPE_URI := Ascii("emisar://dispatch/v1")
  const GROUP := Ascii("group")
  const LABEL := Ascii("label.")

  const MAX_SCOPE_URI_BYTES: nat := 512

  datatype Scope = Scope(group: Bytes, labels: map<Bytes, Bytes>)

  const UNSCOPED := Scope([], map[])

  datatype Refusal =
    | TooLong | WrongBase | EmptyQuery | NoValue | NotCanonical
    | MustEncode | Truncated | NotHex
    | RepeatedGroup | EmptyGroup | EmptyKey | RepeatedLabel | UnknownParameter

  // ---------------------------------------------------------------- components

  predicate Unreserved(b: byte) {
    LOWER_A <= b <= 0x7A || UPPER_A <= b <= 0x5A || IsDigit(b) || b == MINUS || b == DOT || b == 0x5F || b == 0x7E
  }

  function UpperHex(n: nat): byte
    requires n < 16
  {
    if n < 10 then ZERO + n else UPPER_A + (n - 10)
  }

  function EncodeByte(b: byte): Bytes {
    if Unreserved(b) then [b] else [PERCENT, UpperHex(b / 16), UpperHex(b % 16)]
  }

  function EncodeComponent(s: Bytes): Bytes {
    if s == [] then [] else EncodeByte(s[0]) + EncodeComponent(s[1..])
  }

  function DecodeComponent(s: Bytes): Result<Bytes, Refusal> {
    if s == [] then Ok([])
    else if s[0] != PERCENT && !Unreserved(s[0]) then Refused(MustEncode)
    else if s[0] != PERCENT then Prepend([s[0]], DecodeComponent(s[1..]))
    else if |s| < 3 then Refused(Truncated)
    else if !IsHex(s[1]) || !IsHex(s[2]) then Refused(NotHex)
    else Prepend([HexDigit(s[1]) * 16 + HexDigit(s[2])], DecodeComponent(s[3..]))
  }

  function Prepend(done: Bytes, rest: Result<Bytes, Refusal>): Result<Bytes, Refusal> {
    match rest
    case Ok(s) => Ok(done + s)
    case Refused(_) => rest
  }

  lemma EncodeNext(done: Bytes, s: Bytes)
    requires s != []
    ensures done + EncodeByte(s[0]) + EncodeComponent(s[1..]) == done + EncodeComponent(s)
  {
    hide EncodeByte;
  }

  method EncodeScopeComponent(s: Bytes) returns (r: Bytes)
    ensures r == EncodeComponent(s)
  {
    r := [];
    for i := 0 to |s|
      invariant r + EncodeComponent(s[i..]) == EncodeComponent(s)
    {
      hide EncodeComponent, Unreserved;
      EncodeNext(r, s[i..]);
      assert s[i..][1..] == s[i + 1..];
      if Unreserved(s[i]) {
        r := r + [s[i]];
      } else {
        r := r + [PERCENT, UpperHex(s[i] / 16), UpperHex(s[i] % 16)];
      }
    }
  }

  lemma PrependTwice(done: Bytes, more: Bytes, rest: Result<Bytes, Refusal>)
    ensures Prepend(done, Prepend(more, rest)) == Prepend(done + more, rest)
    ensures Prepend([], rest) == rest
  {
    if rest.Ok? {
      assert done + (more + rest.value) == done + more + rest.value;
      assert [] + rest.value == rest.value;
    }
  }

  method DecodeScopeComponent(s: Bytes) returns (r: Result<Bytes, Refusal>)
    ensures r == DecodeComponent(s)
  {
    var done: Bytes := [];
    var i := 0;
    PrependTwice([], [], DecodeComponent(s));
    while i < |s|
      invariant 0 <= i <= |s|
      invariant Prepend(done, DecodeComponent(s[i..])) == DecodeComponent(s)
    {
      var c := s[i];
      if c != PERCENT {
        if !Unreserved(c) {
          return Refused(MustEncode);
        }
        assert s[i..][1..] == s[i + 1..];
        PrependTwice(done, [c], DecodeComponent(s[i + 1..]));
        done := done + [c];
      } else {
        if i + 2 >= |s| {
          return Refused(Truncated);
        }
        if !IsHex(s[i + 1]) || !IsHex(s[i + 2]) {
          return Refused(NotHex);
        }
        assert s[i..][3..] == s[i + 3..];
        var b: byte := HexDigit(s[i + 1]) * 16 + HexDigit(s[i + 2]);
        PrependTwice(done, [b], DecodeComponent(s[i + 3..]));
        done := done + [b];
        i := i + 2;
      }
      i := i + 1;
    }
    assert s[i..] == [] && done + [] == done;
    r := Ok(done);
  }

  // ---------------------------------------------------------------- encoding

  function GroupParam(group: Bytes): Bytes {
    GROUP + [EQUALS] + EncodeComponent(group)
  }

  function LabelParam(key: Bytes, value: Bytes): Bytes {
    LABEL + EncodeComponent(key) + [EQUALS] + EncodeComponent(value)
  }

  // The query parameters that say what a scope says.
  ghost function Params(s: Scope): set<Bytes> {
    (if s.group != [] then {GroupParam(s.group)} else {}) + set k <- s.labels :: LabelParam(k, s.labels[k])
  }

  // The members of a set in bytewise order.
  ghost function InOrder(ss: set<Bytes>): (r: seq<Bytes>)
    ensures Sorted(r) && multiset(r) == multiset(ss)
    decreases |ss|
  {
    if ss == {} then []
    else
      var x :| x in ss;
      var rest := InOrder(ss - {x});
      InsertSorts(x, rest);
      Insert(x, rest)
  }

  ghost function Query(s: Scope): Bytes {
    Join(InOrder(Params(s)), AMPERSAND)
  }

  ghost function Spelling(s: Scope): Bytes {
    if s == UNSCOPED then SCOPE_URI else SCOPE_URI + [QUESTION] + Query(s)
  }

  ghost function Encoded(s: Scope): Result<Bytes, Refusal> {
    if [] in s.labels then Refused(EmptyKey)
    else if |Spelling(s)| > MAX_SCOPE_URI_BYTES then Refused(TooLong)
    else Ok(Spelling(s))
  }

  // ---------------------------------------------------------------- components: round trip

  lemma EncodeByteFacts(b: byte)
    ensures forall c <- EncodeByte(b) :: Unreserved(c) || c == PERCENT
    ensures IsHex(UpperHex(b / 16)) && IsHex(UpperHex(b % 16))
    ensures HexDigit(UpperHex(b / 16)) * 16 + HexDigit(UpperHex(b % 16)) == b
  {
  }

  lemma {:induction false} DecodeEncode(s: Bytes)
    ensures DecodeComponent(EncodeComponent(s)) == Ok(s)
  {
    if s != [] {
      DecodeEncode(s[1..]);
      EncodeByteFacts(s[0]);
      var e := EncodeComponent(s);
      assert e[|EncodeByte(s[0])|..] == EncodeComponent(s[1..]);
      assert s == [s[0]] + s[1..];
    }
  }

  lemma {:induction false} EncodedIsPlain(s: Bytes)
    ensures forall c <- EncodeComponent(s) :: Unreserved(c) || c == PERCENT
  {
    if s != [] {
      EncodeByteFacts(s[0]);
      EncodedIsPlain(s[1..]);
    }
  }

  lemma EncodeIsInjective(a: Bytes, b: Bytes)
    requires EncodeComponent(a) == EncodeComponent(b)
    ensures a == b
  {
    DecodeEncode(a);
    DecodeEncode(b);
  }

  lemma NamesArePlain()
    ensures EQUALS !in GROUP && EQUALS !in LABEL && AMPERSAND !in GROUP && AMPERSAND !in LABEL
    ensures QUESTION !in SCOPE_URI
  {
  }

  lemma ParamCuts(key: Bytes, value: Bytes)
    ensures Cut(LabelParam(key, value), EQUALS) == Halves(LABEL + EncodeComponent(key), EncodeComponent(value), true)
    ensures Cut(GroupParam(value), EQUALS) == Halves(GROUP, EncodeComponent(value), true)
    ensures AMPERSAND !in LabelParam(key, value) && AMPERSAND !in GroupParam(value)
  {
    EncodedIsPlain(key);
    EncodedIsPlain(value);
    NamesArePlain();
    hide Cut, EncodeComponent, Ascii;
    CutAfter(LABEL + EncodeComponent(key), EQUALS, EncodeComponent(value));
    CutAfter(GROUP, EQUALS, EncodeComponent(value));
  }

  lemma LabelParamIsInjective(k: Bytes, v: Bytes, l: Bytes, w: Bytes)
    requires LabelParam(k, v) == LabelParam(l, w)
    ensures k == l && v == w
  {
    ParamCuts(k, v);
    ParamCuts(l, w);
    assert EncodeComponent(k) == (LABEL + EncodeComponent(k))[|LABEL|..];
    assert EncodeComponent(l) == (LABEL + EncodeComponent(l))[|LABEL|..];
    EncodeIsInjective(k, l);
    EncodeIsInjective(v, w);
  }

  lemma GroupIsNotLabel(g: Bytes, k: Bytes, v: Bytes)
    ensures GroupParam(g) != LabelParam(k, v)
  {
    assert GroupParam(g)[0] == 'g' as int && LabelParam(k, v)[0] == 'l' as int;
  }

  // ---------------------------------------------------------------- the encoder

  // The scope restricted to some of its label keys.
  ghost function Restricted(s: Scope, keys: set<Bytes>): Scope {
    Scope(s.group, map k | k in s.labels && k in keys :: s.labels[k])
  }

  lemma OneMoreParam(s: Scope, done: set<Bytes>, key: Bytes)
    requires done <= s.labels.Keys && key in s.labels && key !in done
    ensures LabelParam(key, s.labels[key]) !in Params(Restricted(s, done))
    ensures Params(Restricted(s, done + {key})) == Params(Restricted(s, done)) + {LabelParam(key, s.labels[key])}
  {
    var p, t, u := LabelParam(key, s.labels[key]), Restricted(s, done), Restricted(s, done + {key});
    GroupIsNotLabel(s.group, key, s.labels[key]);
    if k :| k in t.labels && LabelParam(k, t.labels[k]) == p {
      LabelParamIsInjective(k, t.labels[k], key, s.labels[key]);
    }
    forall q | q in Params(u) ensures q in Params(t) + {p} {
      if k :| k in u.labels && q == LabelParam(k, u.labels[k]) {
        if k != key {
          assert k in t.labels;
        }
      }
    }
    assert key in u.labels;
    forall q | q in Params(t) ensures q in Params(u) {
      if k :| k in t.labels && q == LabelParam(k, t.labels[k]) {
        assert k in u.labels;
      }
    }
  }

  lemma OneMoreOf(params: seq<Bytes>, s: Scope, done: set<Bytes>, key: Bytes)
    requires done <= s.labels.Keys && key in s.labels && key !in done
    requires multiset(params) == multiset(Params(Restricted(s, done)))
    ensures multiset(params + [LabelParam(key, s.labels[key])]) == multiset(Params(Restricted(s, done + {key})))
  {
    hide LabelParam, Params, Restricted;
    OneMoreParam(s, done, key);
  }

  lemma NoParams(s: Scope)
    ensures Params(s) == {} <==> s == UNSCOPED
  {
    if s != UNSCOPED && s.group == [] {
      assert s.labels != map[];
      var k :| k in s.labels;
      assert LabelParam(k, s.labels[k]) in Params(s);
    }
  }

  lemma FirstParams(s: Scope)
    ensures Params(Restricted(s, {})) == if s.group != [] then {GroupParam(s.group)} else {}
    ensures Restricted(s, s.labels.Keys) == s
  {
    assert Restricted(s, {}).labels == map[];
    assert Restricted(s, s.labels.Keys).labels == s.labels;
  }

  // Sorting forgets the order in which the parameters were collected.
  lemma SpellsScope(params: seq<Bytes>, s: Scope)
    requires multiset(params) == multiset(Params(s))
    ensures Spelling(s) ==
            if Sort(params) == [] then SCOPE_URI else SCOPE_URI + [QUESTION] + Join(Sort(params), AMPERSAND)
  {
    hide Ascii, Join, Params, Sort, InOrder;
    SortSorts(params);
    SortedIsUnique(Sort(params), InOrder(Params(s)));
    NoParams(s);
    assert |multiset(Params(s))| == |Params(s)| && |multiset(Sort(params))| == |Sort(params)|;
  }

  lemma ParamTexts(g: Bytes, k: Bytes, v: Bytes)
    ensures GroupParam(g) == GROUP + [EQUALS] + EncodeComponent(g)
    ensures LabelParam(k, v) == LABEL + EncodeComponent(k) + [EQUALS] + EncodeComponent(v)
  {
  }

  lemma EncodedIs(s: Scope)
    ensures Encoded(s) ==
            if [] in s.labels then Refused(EmptyKey)
            else if |Spelling(s)| > MAX_SCOPE_URI_BYTES then Refused(TooLong)
            else Ok(Spelling(s))
  {
    hide Spelling;
  }

  // The labels are visited in whatever order the map yields them.
  method EncodeScopeURI(s: Scope) returns (r: Result<Bytes, Refusal>)
    ensures r == Encoded(s)
  {
    hide *;
    EncodedIs(s);
    ParamTexts(s.group, [], []);
    var params: seq<Bytes> := [];
    if s.group != [] {
      var group := EncodeScopeComponent(s.group);
      params := params + [GROUP + [EQUALS] + group];
    }
    var left := s.labels.Keys;
    FirstParams(s);
    ghost var done: set<Bytes> := {};
    while left != {}
      invariant left <= s.labels.Keys && done == s.labels.Keys - left && ([] in s.labels ==> [] in left)
      invariant multiset(params) == multiset(Params(Restricted(s, done)))
    {
      var key :| key in left;
      if key == [] {
        return Refused(EmptyKey);
      }
      OneMoreOf(params, s, done, key);
      ParamTexts([], key, s.labels[key]);
      var encodedKey := EncodeScopeComponent(key);
      var value := EncodeScopeComponent(s.labels[key]);
      params := params + [LABEL + encodedKey + [EQUALS] + value];
      left, done := left - {key}, done + {key};
      assert done == s.labels.Keys - left;
    }
    assert done == s.labels.Keys;
    SpellsScope(params, s);
    params := Sort(params);
    var uri := SCOPE_URI;
    if |params| > 0 {
      uri := uri + [QUESTION] + Join(params, AMPERSAND);
    }
    if |uri| > MAX_SCOPE_URI_BYTES {
      return Refused(TooLong);
    }
    return Ok(uri);
  }

  // ---------------------------------------------------------------- parsing

  // What one query parameter adds to a scope.
  function ReadParam(param: Bytes, s: Scope): Result<Scope, Refusal> {
    var cut := Cut(param, EQUALS);
    if !cut.found then Refused(NoValue)
    else match DecodeComponent(cut.after)
      case Refused(reason) => Refused(reason)
      case Ok(value) =>
        if cut.before == GROUP then
          if s.group != [] then Refused(RepeatedGroup)
          else if value == [] then Refused(EmptyGroup)
          else Ok(s.(group := value))
        else if LABEL <= cut.before then
          match DecodeComponent(cut.before[|LABEL|..])
          case Refused(reason) => Refused(reason)
          case Ok(key) =>
            if key == [] then Refused(EmptyKey)
            else if key in s.labels then Refused(RepeatedLabel)
            else Ok(s.(labels := s.labels[key := value]))
        else Refused(UnknownParameter)
  }

  function ReadParams(params: seq<Bytes>, s: Scope): Result<Scope, Refusal> {
    if params == [] then Ok(s)
    else match ReadParam(params[0], s)
      case Ok(t) => ReadParams(params[1..], t)
      case Refused(reason) => Refused(reason)
  }

  // What a URI says, whether or not it is the canonical way of saying it.
  function Meaning(raw: Bytes): Result<Scope, Refusal> {
    var cut := Cut(raw, QUESTION);
    if |raw| > MAX_SCOPE_URI_BYTES then Refused(TooLong)
    else if cut.before != SCOPE_URI then Refused(WrongBase)
    else if !cut.found then Ok(UNSCOPED)
    else if cut.after == [] then Refused(EmptyQuery)
    else ReadParams(Split(cut.after, AMPERSAND), UNSCOPED)
  }

  ghost function Parsed(raw: Bytes): Result<Scope, Refusal> {
    match Meaning(raw)
    case Refused(reason) => Refused(reason)
    case Ok(s) =>
      match Encoded(s)
      case Refused(reason) => Refused(reason)
      case Ok(canonical) => if canonical == raw then Ok(s) else Refused(NotCanonical)
  }

  method ParseScopeURI(raw: Bytes) returns (r: Result<Scope, Refusal>)
    ensures r == Parsed(raw)
  {
    if |raw| > MAX_SCOPE_URI_BYTES {
      return Refused(TooLong);
    }
    var cut := Cut(raw, QUESTION);
    if cut.before != SCOPE_URI {
      return Refused(WrongBase);
    }
    var scope := UNSCOPED;
    if cut.found {
      if cut.after == [] {
        return Refused(EmptyQuery);
      }
      var params := Split(cut.after, AMPERSAND);
      for i := 0 to |params|
        invariant ReadParams(params[i..], scope) == ReadParams(params, UNSCOPED)
      {
        assert params[i..][1..] == params[i + 1..];
        var param := Cut(params[i], EQUALS);
        if !param.found {
          return Refused(NoValue);
        }
        var value := DecodeScopeComponent(param.after);
        if value.Refused? {
          return Refused(value.reason);
        }
        if param.before == GROUP {
          if scope.group != [] {
            return Refused(RepeatedGroup);
          }
          if value.value == [] {
            return Refused(EmptyGroup);
          }
          scope := scope.(group := value.value);
        } else if LABEL <= param.before {
          var key := DecodeScopeComponent(param.before[|LABEL|..]);
          if key.Refused? {
            return Refused(key.reason);
          }
          if key.value == [] {
            return Refused(EmptyKey);
          }
          if key.value in scope.labels {
            return Refused(RepeatedLabel);
          }
          scope := scope.(labels := scope.labels[key.value := value.value]);
        } else {
          return Refused(UnknownParameter);
        }
      }
    }
    var canonical := EncodeScopeURI(scope);
    if canonical.Refused? {
      return Refused(canonical.reason);
    }
    if canonical.value != raw {
      return Refused(NotCanonical);
    }
    return Ok(scope);
  }

  // ---------------------------------------------------------------- the bijection

  // `t` says part of what `s` says.
  ghost predicate PartOf(t: Scope, s: Scope) {
    (t.group == [] || t.group == s.group) && t.labels.Keys <= s.labels.Keys
    && forall k <- t.labels :: t.labels[k] == s.labels[k]
  }

  lemma ReadsGroup(t: Scope, g: Bytes)
    requires g != [] && t.group == []
    ensures ReadParam(GroupParam(g), t) == Ok(t.(group := g))
  {
    hide Ascii, GroupParam, DecodeComponent;
    ParamCuts([], g);
    DecodeEncode(g);
  }

  lemma ReadsLabel(t: Scope, k: Bytes, v: Bytes)
    requires k != [] && k !in t.labels
    ensures ReadParam(LabelParam(k, v), t) == Ok(t.(labels := t.labels[k := v]))
  {
    assert LABEL + EncodeComponent(k) != GROUP by {
      assert (LABEL + EncodeComponent(k))[0] != GROUP[0];
    }
    hide Ascii, LabelParam, DecodeComponent, EncodeComponent;
    ParamCuts(k, v);
    DecodeEncode(v);
    DecodeEncode(k);
    assert (LABEL + EncodeComponent(k))[|LABEL|..] == EncodeComponent(k);
  }

  // Reading one more parameter of s adds exactly what it says.
  lemma ReadsOneParam(t: Scope, s: Scope, p: Bytes)
    requires PartOf(t, s) && [] !in s.labels && p in Params(s) && p !in Params(t)
    ensures ReadParam(p, t).Ok?
    ensures var u := ReadParam(p, t).value; PartOf(u, s) && Params(u) == Params(t) + {p}
  {
    hide Ascii, GroupParam, LabelParam, ReadParam;
    if s.group != [] && p == GroupParam(s.group) {
      ReadsGroup(t, s.group);
    } else {
      var k :| k in s.labels && p == LabelParam(k, s.labels[k]);
      if k in t.labels {
        assert false;
      }
      ReadsLabel(t, k, s.labels[k]);
      ParamsGrow(t, k, s.labels[k]);
    }
  }

  lemma ParamsGrow(t: Scope, k: Bytes, v: Bytes)
    requires k !in t.labels
    ensures Params(t.(labels := t.labels[k := v])) == Params(t) + {LabelParam(k, v)}
  {
    var u := t.(labels := t.labels[k := v]);
    forall q | q in Params(u) ensures q in Params(t) + {LabelParam(k, v)} {
      if l :| l in u.labels && q == LabelParam(l, u.labels[l]) {
        if l != k {
          assert l in t.labels;
        }
      }
    }
    assert k in u.labels;
    forall q | q in Params(t) ensures q in Params(u) {
      if l :| l in t.labels && q == LabelParam(l, t.labels[l]) {
        assert l in u.labels;
      }
    }
  }

  lemma PartWithAllParams(t: Scope, s: Scope)
    requires PartOf(t, s) && Params(t) == Params(s)
    ensures t == s
  {
    if s.group != [] && t.group == [] {
      assert GroupParam(s.group) in Params(t);
      var k :| k in t.labels && GroupParam(s.group) == LabelParam(k, t.labels[k]);
      GroupIsNotLabel(s.group, k, t.labels[k]);
    }
    forall k | k in s.labels ensures k in t.labels {
      var p := LabelParam(k, s.labels[k]);
      assert p in Params(t);
      GroupIsNotLabel(t.group, k, s.labels[k]);
      var l :| l in t.labels && p == LabelParam(l, t.labels[l]);
      LabelParamIsInjective(k, s.labels[k], l, t.labels[l]);
    }
    assert t.labels == s.labels;
  }

  // Reading all parameters of a scope, in any order, gives the scope.
  lemma {:induction false} ReadsAllParams(params: seq<Bytes>, t: Scope, s: Scope)
    requires PartOf(t, s) && [] !in s.labels
    requires multiset(params) + multiset(Params(t)) == multiset(Params(s))
    ensures ReadParams(params, t) == Ok(s)
  {
    hide PartOf, Params, ReadParam;
    if params == [] {
      forall p ensures p in Params(t) <==> p in Params(s) {
        assert p in multiset(Params(t)) <==> p in multiset(Params(s));
      }
      PartWithAllParams(t, s);
    } else {
      var p, rest := params[0], params[1..];
      assert params == [p] + rest;
      assert multiset(params)[p] >= 1 && multiset(Params(s))[p] <= 1;
      assert p in multiset(Params(s)) && p !in multiset(Params(t));
      ReadsOneParam(t, s, p);
      var u := ReadParam(p, t).value;
      assert multiset(Params(u)) == multiset(Params(t)) + multiset{p};
      ReadsAllParams(rest, u, s);
    }
  }

  lemma QueryIsPlain(s: Scope)
    ensures forall p <- InOrder(Params(s)) :: AMPERSAND !in p
  {
    forall p <- InOrder(Params(s)) ensures AMPERSAND !in p {
      assert p in multiset(InOrder(Params(s)));
      if s.group != [] && p == GroupParam(s.group) {
        ParamCuts([], s.group);
      } else {
        var k :| k in s.labels && p == LabelParam(k, s.labels[k]);
        ParamCuts(k, s.labels[k]);
      }
    }
  }

  // Every scope whose keys are not empty is what its spelling means.
  lemma SpellingMeansScope(s: Scope)
    requires [] !in s.labels && |Spelling(s)| <= MAX_SCOPE_URI_BYTES
    ensures Meaning(Spelling(s)) == Ok(s)
  {
    NamesArePlain();
    hide Ascii, Params, Cut, Query, ReadParams, Split;
    CutAfter(SCOPE_URI, QUESTION, Query(s));
    if s != UNSCOPED {
      JoinIsNotEmpty(s);
      QueryReads(s);
    }
  }

  lemma QueryReads(s: Scope)
    requires [] !in s.labels && s != UNSCOPED
    ensures ReadParams(Split(Query(s), AMPERSAND), UNSCOPED) == Ok(s)
  {
    hide *;
    JoinIsNotEmpty(s);
    NothingIsPart(s);
    QueryIsPlain(s);
    SplitJoin(InOrder(Params(s)), AMPERSAND);
    QueryIs(s);
    assert multiset(InOrder(Params(s))) + multiset{} == multiset(Params(s));
    ReadsAllParams(InOrder(Params(s)), UNSCOPED, s);
  }

  lemma QueryIs(s: Scope)
    ensures Query(s) == Join(InOrder(Params(s)), AMPERSAND)
    ensures multiset(InOrder(Params(s))) == multiset(Params(s))
  {
  }

  lemma NothingIsPart(s: Scope)
    ensures PartOf(UNSCOPED, s) && Params(UNSCOPED) == {}
  {
  }

  lemma JoinIsNotEmpty(s: Scope)
    requires s != UNSCOPED
    ensures InOrder(Params(s)) != [] && Query(s) != []
  {
    NoParams(s);
    var params := InOrder(Params(s));
    var p :| p in Params(s);
    assert p in multiset(params);
    assert params[0] in multiset(params);
    assert params[0] in Params(s);
  }

  // Parsing undoes encoding and encoding undoes parsing, for every scope and every URI: a URI is
  // accepted exactly as the one spelling of its scope.
  lemma ScopeUriBijection(raw: Bytes, s: Scope)
    ensures Parsed(raw) == Ok(s) <==> Encoded(s) == Ok(raw)
  {
    if Encoded(s) == Ok(raw) {
      SpellingMeansScope(s);
    }
  }

  // Exactly the scopes without an empty label key whose spelling fits can be written, and they read back.
  lemma EncodeThenParse(s: Scope)
    ensures Encoded(s).Ok? <==> [] !in s.labels && |Spelling(s)| <= MAX_SCOPE_URI_BYTES
    ensures Encoded(s).Ok? ==> Parsed(Encoded(s).value) == Ok(s)
  {
    if Encoded(s).Ok? {
      ScopeUriBijection(Encoded(s).value, s);
    }
  }

  // Two accepted URIs never mean the same scope, and two scopes never share a URI.
  lemma OneSpellingPerScope(raw: Bytes, other: Bytes)
    requires Parsed(raw).Ok? && Parsed(other).Ok?
    ensures Parsed(raw) == Parsed(other) <==> raw == other
  {
    ScopeUriBijection(raw, Parsed(raw).value);
    ScopeUriBijection(other, Parsed(other).value);
  }
}
