// Edit scripts between two sequences of lines, and the longest common subsequence that bounds
// how few edits a script can make do with.

module EditScripts {

  type Line = string

  datatype Kind = Equal | Delete | Insert

  datatype Edit = Edit(kind: Kind, text: Line)

  type Script = seq<Edit>

  // ---------------------------------------------------------------- the two sides of a script

  function Old(s: Script): seq<Line> {
    if s == [] then []
    else (if s[0].kind == Insert then [] else [s[0].text]) + Old(s[1..])
  }

  function New(s: Script): seq<Line> {
    if s == [] then []
    else (if s[0].kind == Delete then [] else [s[0].text]) + New(s[1..])
  }

  function CountOf(s: Script, kind: Kind): nat {
    if s == [] then 0 else (if s[0].kind == kind then 1 else 0) + CountOf(s[1..], kind)
  }

  function Edits(s: Script): nat {
    CountOf(s, Insert) + CountOf(s, Delete)
  }

  ghost predicate Turns(s: Script, a: seq<Line>, b: seq<Line>) {
    Old(s) == a && New(s) == b
  }

  function All(kind: Kind, lines: seq<Line>): Script {
    seq(|lines|, i requires 0 <= i < |lines| => Edit(kind, lines[i]))
  }

  lemma Associates(a: seq<Line>, b: seq<Line>, c: seq<Line>)
    ensures a + (b + c) == a + b + c
  {
  }

  lemma OldHead(s: Script)
    requires s != []
    ensures Old(s) == (if s[0].kind == Insert then [] else [s[0].text]) + Old(s[1..])
  {
  }

  lemma {:induction false} OldConcat(s: Script, t: Script)
    ensures Old(s + t) == Old(s) + Old(t)
  {
    if s == [] {
      assert s + t == t;
    } else {
      hide Old;
      OldHead(s);
      OldHead(s + t);
      assert (s + t)[1..] == s[1..] + t && (s + t)[0] == s[0];
      OldConcat(s[1..], t);
      Associates(if s[0].kind == Insert then [] else [s[0].text], Old(s[1..]), Old(t));
    }
  }

  lemma NewHead(s: Script)
    requires s != []
    ensures New(s) == (if s[0].kind == Delete then [] else [s[0].text]) + New(s[1..])
  {
  }

  lemma {:induction false} NewConcat(s: Script, t: Script)
    ensures New(s + t) == New(s) + New(t)
  {
    if s == [] {
      assert s + t == t;
    } else {
      hide New;
      NewHead(s);
      NewHead(s + t);
      assert (s + t)[1..] == s[1..] + t && (s + t)[0] == s[0];
      NewConcat(s[1..], t);
      Associates(if s[0].kind == Delete then [] else [s[0].text], New(s[1..]), New(t));
    }
  }

  lemma {:induction false} CountConcat(s: Script, t: Script, kind: Kind)
    ensures CountOf(s + t, kind) == CountOf(s, kind) + CountOf(t, kind)
  {
    if s == [] {
      assert s + t == t;
    } else {
      CountConcat(s[1..], t, kind);
      assert (s + t)[1..] == s[1..] + t;
    }
  }

  lemma AppendEdit(s: Script, e: Edit)
    ensures Old(s + [e]) == Old(s) + (if e.kind == Insert then [] else [e.text])
    ensures New(s + [e]) == New(s) + (if e.kind == Delete then [] else [e.text])
    ensures CountOf(s + [e], Equal) == CountOf(s, Equal) + if e.kind == Equal then 1 else 0
    ensures Edits(s + [e]) == Edits(s) + if e.kind == Equal then 0 else 1
  {
    OldConcat(s, [e]);
    NewConcat(s, [e]);
    CountConcat(s, [e], Equal);
    CountConcat(s, [e], Insert);
    CountConcat(s, [e], Delete);
  }

  lemma {:induction false} AllSides(kind: Kind, lines: seq<Line>)
    ensures Old(All(kind, lines)) == if kind == Insert then [] else lines
    ensures New(All(kind, lines)) == if kind == Delete then [] else lines
    ensures forall k: Kind :: CountOf(All(kind, lines), k) == if k == kind then |lines| else 0
  {
    if lines != [] {
      AllSides(kind, lines[1..]);
      assert All(kind, lines)[1..] == All(kind, lines[1..]);
    }
  }

  // Every old line is kept or deleted, every new line is kept or inserted.
  lemma {:induction false} SideLengths(s: Script)
    ensures |Old(s)| == CountOf(s, Equal) + CountOf(s, Delete)
    ensures |New(s)| == CountOf(s, Equal) + CountOf(s, Insert)
  {
    if s != [] {
      SideLengths(s[1..]);
    }
  }

  // ---------------------------------------------------------------- longest common subsequence

  function Max(x: nat, y: nat): nat { if x >= y then x else y }

  function Lcs(a: seq<Line>, b: seq<Line>): nat {
    if a == [] || b == [] then 0
    else if a[0] == b[0] then 1 + Lcs(a[1..], b[1..])
    else Max(Lcs(a[1..], b), Lcs(a, b[1..]))
  }

  // Dropping the first line of either side loses at most one.
  lemma {:induction false} LcsDrop(a: seq<Line>, b: seq<Line>)
    ensures Lcs(a, b) <= |a| && Lcs(a, b) <= |b|
    ensures |a| > 0 ==> Lcs(a[1..], b) <= Lcs(a, b) <= Lcs(a[1..], b) + 1
    ensures |b| > 0 ==> Lcs(a, b[1..]) <= Lcs(a, b) <= Lcs(a, b[1..]) + 1
    decreases |a| + |b|
  {
    if a != [] && b != [] {
      LcsDrop(a[1..], b[1..]);
      LcsDrop(a[1..], b);
      LcsDrop(a, b[1..]);
    }
  }

  // No script keeps more lines than the longest common subsequence has.
  lemma {:induction false} KeepsAtMostLcs(s: Script)
    ensures CountOf(s, Equal) <= Lcs(Old(s), New(s))
  {
    if s != [] {
      KeepsAtMostLcs(s[1..]);
      LcsDrop(Old(s), New(s));
      match s[0].kind
      case Equal => assert Old(s)[1..] == Old(s[1..]) && New(s)[1..] == New(s[1..]);
      case Delete => assert Old(s)[1..] == Old(s[1..]) && New(s) == New(s[1..]);
      case Insert => assert Old(s) == Old(s[1..]) && New(s)[1..] == New(s[1..]);
    }
  }

  // A script that keeps as many lines as the longest common subsequence makes the fewest edits.
  lemma KeepingLcsIsMinimal(s: Script, a: seq<Line>, b: seq<Line>)
    requires Turns(s, a, b) && CountOf(s, Equal) == Lcs(a, b)
    ensures Edits(s) == |a| + |b| - 2 * Lcs(a, b)
    ensures forall t: Script :: Turns(t, a, b) ==> Edits(s) <= Edits(t)
  {
    SideLengths(s);
    forall t: Script | Turns(t, a, b) ensures Edits(s) <= Edits(t) {
      SideLengths(t);
      KeepsAtMostLcs(t);
    }
  }

  lemma {:induction false} LcsPrefix(p: seq<Line>, a: seq<Line>, b: seq<Line>)
    ensures Lcs(p + a, p + b) == |p| + Lcs(a, b)
  {
    if p == [] {
      assert p + a == a && p + b == b;
    } else {
      LcsPrefix(p[1..], a, b);
      assert (p + a)[1..] == p[1..] + a && (p + b)[1..] == p[1..] + b;
    }
  }

  lemma {:induction false} LcsOneLine(x: Line, b: seq<Line>)
    ensures Lcs([x], b + [x]) == 1 && Lcs(b + [x], [x]) == 1
  {
    if b != [] {
      LcsOneLine(x, b[1..]);
      assert (b + [x])[1..] == b[1..] + [x];
    }
  }

  // Trimming a shared last line loses exactly that line, although the recursion runs forwards.
  lemma {:induction false} LcsLast(a: seq<Line>, b: seq<Line>, x: Line)
    ensures Lcs(a + [x], b + [x]) == Lcs(a, b) + 1
    decreases |a| + |b|
  {
    if a == [] || b == [] {
      LcsOneLine(x, a + b);
      assert [] + [x] == [x] && a + b == if a == [] then b else a;
    } else {
      LcsLast(a[1..], b[1..], x);
      LcsLast(a[1..], b, x);
      LcsLast(a, b[1..], x);
      assert (a + [x])[1..] == a[1..] + [x] && (b + [x])[1..] == b[1..] + [x];
    }
  }

  lemma {:induction false} LcsSuffix(a: seq<Line>, b: seq<Line>, s: seq<Line>)
    ensures Lcs(a + s, b + s) == Lcs(a, b) + |s|
    decreases |s|
  {
    if s == [] {
      assert a + s == a && b + s == b;
    } else {
      LcsSuffix(a + [s[0]], b + [s[0]], s[1..]);
      LcsLast(a, b, s[0]);
      assert a + s == a + [s[0]] + s[1..] && b + s == b + [s[0]] + s[1..];
    }
  }

  // ---------------------------------------------------------------- the order of edits

  function Rank(kind: Kind): nat {
    match kind
    case Equal => 0
    case Delete => 1
    case Insert => 2
  }

  // In lexicographic order, a kept line before a deleted one before an inserted one, `s` does not come
  // after `t`.
  predicate NotAfter(s: Script, t: Script) {
    || s == []
    || (t != []
        && (Rank(s[0].kind) < Rank(t[0].kind) || (s[0].kind == t[0].kind && NotAfter(s[1..], t[1..]))))
  }

  // The first of all shortest scripts.
  ghost predicate FirstOfShortest(s: Script, a: seq<Line>, b: seq<Line>) {
    && Turns(s, a, b) && Edits(s) == |a| + |b| - 2 * Lcs(a, b)
    && forall t: Script :: Turns(t, a, b) ==>
         Edits(s) <= Edits(t) && (Edits(s) == Edits(t) ==> NotAfter(s, t))
  }

  // A replaced line reads as deleted and then inserted.
  predicate DeletesFirst(s: Script) {
    forall i :: 0 < i < |s| && s[i - 1].kind == Insert ==> s[i].kind != Delete
  }

  // The script made line by line: keep a shared line, else delete where that loses no common line.
  function First(a: seq<Line>, b: seq<Line>): Script
    decreases |a| + |b|
  {
    if a == [] then All(Insert, b)
    else if b == [] then All(Delete, a)
    else if a[0] == b[0] then [Edit(Equal, a[0])] + First(a[1..], b[1..])
    else if Lcs(a[1..], b) >= Lcs(a, b[1..]) then [Edit(Delete, a[0])] + First(a[1..], b)
    else [Edit(Insert, b[0])] + First(a, b[1..])
  }

  lemma AllUnfolds(kind: Kind, lines: seq<Line>)
    requires lines != []
    ensures All(kind, lines) == [Edit(kind, lines[0])] + All(kind, lines[1..])
  {
  }

  lemma SidesUnfold(t: Script)
    requires t != []
    ensures t[0].kind != Insert ==> Old(t) != [] && Old(t)[0] == t[0].text && Old(t[1..]) == Old(t)[1..]
    ensures t[0].kind != Delete ==> New(t) != [] && New(t)[0] == t[0].text && New(t[1..]) == New(t)[1..]
    ensures t[0].kind == Insert ==> Old(t[1..]) == Old(t)
    ensures t[0].kind == Delete ==> New(t[1..]) == New(t)
    ensures CountOf(t, Equal) == CountOf(t[1..], Equal) + if t[0].kind == Equal then 1 else 0
  {
  }

  lemma FirstUnfolds(a: seq<Line>, b: seq<Line>)
    requires a != [] || b != []
    ensures var s := First(a, b);
            && s != []
            && match s[0].kind
               case Equal => a != [] && b != [] && a[0] == b[0] && s[1..] == First(a[1..], b[1..])
               case Delete => a != [] && s[1..] == First(a[1..], b) && (b != [] ==> Lcs(a[1..], b) >= Lcs(a, b[1..]))
               case Insert => b != [] && s[1..] == First(a, b[1..]) && (a != [] ==> Lcs(a[1..], b) < Lcs(a, b[1..]))
    ensures a != [] && b != [] && a[0] == b[0] ==> First(a, b)[0].kind.Equal?
    ensures First(a, b)[0].text == if First(a, b)[0].kind.Insert? then b[0] else a[0]
  {
    hide Lcs;
    if a == [] {
      AllUnfolds(Insert, b);
    } else if b == [] {
      AllUnfolds(Delete, a);
      assert a[1..] == [] ==> All(Delete, a[1..]) == [] == All(Insert, b);
    }
  }

  lemma LcsUnfolds(a: seq<Line>, b: seq<Line>)
    requires a != [] && b != []
    ensures Lcs(a, b) == if a[0] == b[0] then 1 + Lcs(a[1..], b[1..]) else Max(Lcs(a[1..], b), Lcs(a, b[1..]))
  {
  }

  lemma NoCommonLine(a: seq<Line>, b: seq<Line>)
    ensures a == [] || b == [] ==> Lcs(a, b) == 0
  {
  }

  lemma {:induction false} FirstTurns(a: seq<Line>, b: seq<Line>)
    ensures Turns(First(a, b), a, b) && CountOf(First(a, b), Equal) == Lcs(a, b)
    decreases |a| + |b|
  {
    NoCommonLine(a, b);
    if a == [] && b == [] {
    } else {
      FirstUnfolds(a, b);
      if a != [] && b != [] {
        LcsUnfolds(a, b);
      }
      var s := First(a, b);
      hide First, Lcs;
      var x := if s[0].kind.Insert? then a else a[1..];
      var y := if s[0].kind.Delete? then b else b[1..];
      FirstTurns(x, y);
      NoCommonLine(x, y);
    }
  }

  // No script that keeps as many lines comes before it.
  lemma {:induction false} FirstComesFirst(a: seq<Line>, b: seq<Line>, t: Script)
    requires Turns(t, a, b) && CountOf(t, Equal) == Lcs(a, b)
    ensures NotAfter(First(a, b), t)
    decreases |t|
  {
    if t != [] {
      SidesUnfold(t);
      FirstUnfolds(a, b);
      NoCommonLine(a, b);
      if a != [] && b != [] {
        LcsUnfolds(a, b);
      }
      hide First, Lcs, Old, New, CountOf;
      var x, y := Old(t[1..]), New(t[1..]);
      KeepsAtMostLcs(t[1..]);
      NoCommonLine(x, y);
      if First(a, b)[0].kind == t[0].kind {
        FirstComesFirst(x, y, t[1..]);
      }
    }
  }

  lemma FirstIsFirst(a: seq<Line>, b: seq<Line>)
    ensures FirstOfShortest(First(a, b), a, b)
  {
    hide First, Lcs, Old, New, CountOf;
    FirstTurns(a, b);
    var s := First(a, b);
    KeepingLcsIsMinimal(s, a, b);
    forall t: Script | Turns(t, a, b) && Edits(s) == Edits(t) ensures NotAfter(s, t) {
      SideLengths(s);
      SideLengths(t);
      FirstComesFirst(a, b, t);
    }
  }

  lemma {:induction false} FirstDeletesFirst(a: seq<Line>, b: seq<Line>)
    ensures DeletesFirst(First(a, b))
    decreases |a| + |b|
  {
    if a != [] || b != [] {
      var s := First(a, b);
      FirstUnfolds(a, b);
      var x := if s[0].kind.Insert? then a else a[1..];
      var y := if s[0].kind.Delete? then b else b[1..];
      FirstDeletesFirst(x, y);
      if s[0].kind.Insert? && s[1..] != [] && s[1].kind.Delete? {
        NoDeleteAfterInsert(a, b);
      }
      hide First, Lcs;
      assert s == [s[0]] + s[1..];
      forall i | 0 < i < |s| && s[i - 1].kind == Insert ensures s[i].kind != Delete {
        if i > 1 {
          assert s[i - 1] == s[1..][i - 2] && s[i] == s[1..][i - 1];
        }
      }
    }
  }

  // Where inserting keeps more than deleting, it still does after the insertion.
  lemma NoDeleteAfterInsert(a: seq<Line>, b: seq<Line>)
    requires b != [] && First(a, b)[..1] == [Edit(Insert, b[0])] && |First(a, b)| > 1
    ensures First(a, b)[1].kind != Delete
  {
    FirstUnfolds(a, b);
    if a == [] {
      FirstUnfolds(a, b[1..]);
    } else {
      FirstUnfolds(a, b[1..]);
      NoCommonLine(a, b[1..]);
      LcsDrop(a[1..], b);
      if b[1..] != [] {
        LcsUnfolds(a, b[1..]);
      }
    }
  }
}
