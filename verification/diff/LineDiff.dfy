// diffLines, diffMiddle and countEdits of runner/textdiff.go.

module LineDiff {
  import opened EditScripts

  newtype int32 = x: int | -0x8000_0000 <= x < 0x8000_0000

  const MAX_DIFF_CELLS: nat := 4_000_000

  // ---------------------------------------------------------------- trimming

  // How far the sides agree from line `n` on.
  function PrefixFrom(a: seq<Line>, b: seq<Line>, n: nat): (p: nat)
    requires n <= |a| && n <= |b| && a[..n] == b[..n]
    ensures n <= p <= |a| && p <= |b| && a[..p] == b[..p]
    decreases |a| - n
  {
    if n < |a| && n < |b| && a[n] == b[n] then PrefixFrom(a, b, n + 1) else n
  }

  // How far they agree back from `n` lines before their ends, stopping at line `p`.
  function SuffixFrom(a: seq<Line>, b: seq<Line>, p: nat, n: nat): (s: nat)
    requires p + n <= |a| && p + n <= |b| && a[|a| - n..] == b[|b| - n..]
    ensures p + s <= |a| && p + s <= |b| && a[|a| - s..] == b[|b| - s..]
    decreases |a| - n
  {
    if p + n < |a| && p + n < |b| && a[|a| - 1 - n] == b[|b| - 1 - n] then
      assert a[|a| - 1 - n..] == [a[|a| - 1 - n]] + a[|a| - n..];
      assert b[|b| - 1 - n..] == [b[|b| - 1 - n]] + b[|b| - n..];
      SuffixFrom(a, b, p, n + 1)
    else n
  }

  // The trimming loops have come so far.
  ghost predicate HeadsAgree(a: seq<Line>, b: seq<Line>, n: nat) {
    n <= |a| && n <= |b| && a[..n] == b[..n] && PrefixFrom(a, b, n) == PrefixFrom(a, b, 0)
  }

  ghost predicate TailsAgree(a: seq<Line>, b: seq<Line>, p: nat, n: nat) {
    && p + n <= |a| && p + n <= |b| && a[|a| - n..] == b[|b| - n..]
    && SuffixFrom(a, b, p, n) == SuffixFrom(a, b, p, 0)
  }

  lemma NothingTrimmed(a: seq<Line>, b: seq<Line>, p: nat)
    ensures HeadsAgree(a, b, 0) && (p <= |a| && p <= |b| ==> TailsAgree(a, b, p, 0))
  {
  }

  lemma PrefixGrows(a: seq<Line>, b: seq<Line>, n: nat)
    requires HeadsAgree(a, b, n) && n < |a| && n < |b| && a[n] == b[n]
    ensures HeadsAgree(a, b, n + 1)
  {
    assert a[..n + 1] == b[..n + 1];
  }

  lemma SuffixGrows(a: seq<Line>, b: seq<Line>, p: nat, n: nat)
    requires TailsAgree(a, b, p, n) && p + n < |a| && p + n < |b| && a[|a| - 1 - n] == b[|b| - 1 - n]
    ensures TailsAgree(a, b, p, n + 1)
  {
    assert a[|a| - (n + 1)..] == b[|b| - (n + 1)..];
  }

  lemma PrefixEnds(a: seq<Line>, b: seq<Line>, p: nat)
    requires HeadsAgree(a, b, p) && (p < |a| && p < |b| ==> a[p] != b[p])
    ensures PrefixFrom(a, b, 0) == p
  {
    assert PrefixFrom(a, b, p) == p;
  }

  lemma SuffixEnds(a: seq<Line>, b: seq<Line>, p: nat, s: nat)
    requires TailsAgree(a, b, p, s) && (p + s < |a| && p + s < |b| ==> a[|a| - 1 - s] != b[|b| - 1 - s])
    ensures SuffixFrom(a, b, p, 0) == s
  {
    assert SuffixFrom(a, b, p, s) == s;
  }

  lemma AgreeingIsTrimmed(a: seq<Line>, b: seq<Line>, p: nat, s: nat)
    requires HeadsAgree(a, b, p) && (p < |a| && p < |b| ==> a[p] != b[p])
    requires TailsAgree(a, b, p, s) && (p + s < |a| && p + s < |b| ==> a[|a| - 1 - s] != b[|b| - 1 - s])
    ensures Trimmed(a, b, p, s)
  {
    hide PrefixFrom, SuffixFrom;
  }

  lemma TrimmingStops(a: seq<Line>, b: seq<Line>, p: nat, s: nat)
    requires HeadsAgree(a, b, p) && (p < |a| && p < |b| ==> a[p] != b[p])
    requires TailsAgree(a, b, p, s) && (p + s < |a| && p + s < |b| ==> a[|a| - 1 - s] != b[|b| - 1 - s])
    ensures Trimmed(a, b, p, s) && p == PrefixFrom(a, b, 0) && s == SuffixFrom(a, b, p, 0)
  {
    hide *;
    PrefixEnds(a, b, p);
    SuffixEnds(a, b, p, s);
    AgreeingIsTrimmed(a, b, p, s);
  }

  // The lines left of each side once the shared head and then the shared tail are gone.
  function Middle(a: seq<Line>, b: seq<Line>): (seq<Line>, seq<Line>) {
    var p := PrefixFrom(a, b, 0);
    var s := SuffixFrom(a, b, p, 0);
    (a[p..|a| - s], b[p..|b| - s])
  }

  // Whether the table those lines need is within bounds.
  predicate Tabulated(a: seq<Line>, b: seq<Line>) {
    |Middle(a, b).0| * |Middle(a, b).1| <= 4_000_000
  }

  lemma LcsTrims(p: seq<Line>, a: seq<Line>, b: seq<Line>, s: seq<Line>)
    ensures Lcs(p + a + s, p + b + s) == |p| + Lcs(a, b) + |s|
  {
    LcsSuffix(p + a, p + b, s);
    LcsPrefix(p, a, b);
  }

  // ---------------------------------------------------------------- the table

  function Cell(i: int, j: int, w: int): int { i * w + j }

  lemma CellsDiffer(i: nat, j: nat, r: nat, c: nat, w: nat)
    requires j < w && c < w && (i != r || j != c)
    ensures Cell(i, j, w) != Cell(r, c, w)
  {
    if i < r {
      assert (i + 1) * w <= r * w;
    } else if r < i {
      assert (r + 1) * w <= i * w;
    }
  }

  lemma CellIsUnique(i: nat, j: nat, w: nat)
    requires j < w
    ensures forall r: nat, c: nat :: c < w && (i != r || j != c) ==> Cell(i, j, w) != Cell(r, c, w)
  {
    forall r: nat, c: nat | c < w && (i != r || j != c) ensures Cell(i, j, w) != Cell(r, c, w) {
      CellsDiffer(i, j, r, c, w);
    }
  }

  ghost predicate Holds(t: seq<int32>, a: seq<Line>, b: seq<Line>, r: nat, c: nat)
    requires r <= |a| && c <= |b|
  {
    var k := Cell(r, c, |b| + 1);
    0 <= k < |t| && t[k] as int == Lcs(a[r..], b[c..])
  }

  // Row `i` from column `j` on, and every row below it.
  ghost predicate Filled(t: seq<int32>, a: seq<Line>, b: seq<Line>, i: nat, j: nat) {
    forall r: nat, c: nat | r <= |a| && c <= |b| && (r > i || (r == i && c >= j)) :: Holds(t, a, b, r, c)
  }

  // The last column, which the loops never write.
  ghost predicate EdgeEmpty(t: seq<int32>, a: seq<Line>, b: seq<Line>) {
    forall r: nat | r <= |a| :: Holds(t, a, b, r, |b|)
  }

  lemma WriteExtends(t: seq<int32>, u: seq<int32>, a: seq<Line>, b: seq<Line>, i: nat, j: nat)
    requires i < |a| && j < |b| && Filled(t, a, b, i, j + 1) && EdgeEmpty(t, a, b)
    requires var k := Cell(i, j, |b| + 1); 0 <= k < |t| == |u| && u == t[k := u[k]]
    requires Holds(u, a, b, i, j)
    ensures Filled(u, a, b, i, j) && EdgeEmpty(u, a, b)
  {
    CellIsUnique(i, j, |b| + 1);
    hide Lcs, Cell;
    forall r: nat, c: nat | r <= |a| && c <= |b| && Holds(t, a, b, r, c) && (i != r || j != c)
      ensures Holds(u, a, b, r, c)
    {
    }
  }

  lemma LcsAt(a: seq<Line>, b: seq<Line>, i: nat, j: nat)
    requires i < |a| && j < |b|
    ensures Lcs(a[i..], b[j..]) ==
            if a[i] == b[j] then 1 + Lcs(a[i + 1..], b[j + 1..])
            else Max(Lcs(a[i + 1..], b[j..]), Lcs(a[i..], b[j + 1..]))
  {
  }

  lemma FilledStart(t: seq<int32>, a: seq<Line>, b: seq<Line>)
    requires |t| == (|a| + 1) * (|b| + 1) && forall k :: 0 <= k < |t| ==> t[k] == 0
    ensures Filled(t, a, b, |a|, 0) && EdgeEmpty(t, a, b)
  {
  }

  lemma NextRow(t: seq<int32>, a: seq<Line>, b: seq<Line>, i: nat)
    requires i < |a| && Filled(t, a, b, i + 1, 0) && EdgeEmpty(t, a, b)
    ensures Filled(t, a, b, i, |b|)
  {
  }

  method FillTable(a: seq<Line>, b: seq<Line>) returns (table: array<int32>)
    requires |a| > 0 && |b| > 0 && |a| * |b| <= MAX_DIFF_CELLS
    ensures Filled(table[..], a, b, 0, 0)
  {
    var w := |b| + 1;
    table := new int32[(|a| + 1) * w](_ => 0);
    FilledStart(table[..], a, b);
    assert |a| <= |a| * |b|;
    for i := |a| downto 0
      invariant Filled(table[..], a, b, i, 0) && EdgeEmpty(table[..], a, b)
    {
      NextRow(table[..], a, b, i);
      for j := |b| downto 0
        invariant Filled(table[..], a, b, i, j) && EdgeEmpty(table[..], a, b)
      {
        ghost var t := table[..];
        FillCell(table, a, b, i, j);
        WriteExtends(t, table[..], a, b, i, j);
      }
    }
  }

  method FillCell(table: array<int32>, a: seq<Line>, b: seq<Line>, i: nat, j: nat)
    requires i < |a| && j < |b| && |a| <= MAX_DIFF_CELLS
    requires Filled(table[..], a, b, i, j + 1)
    modifies table
    ensures var k := Cell(i, j, |b| + 1);
            0 <= k < table.Length && table[..] == old(table[..])[k := table[k]] && Holds(table[..], a, b, i, j)
  {
    var w := |b| + 1;
    LcsAt(a, b, i, j);
    LcsDrop(a[i + 1..], b[j + 1..]);
    hide Lcs;
    assert Holds(table[..], a, b, i + 1, j) && Holds(table[..], a, b, i, j + 1) && Holds(table[..], a, b, i + 1, j + 1);
    if a[i] == b[j] {
      table[i * w + j] := table[(i + 1) * w + j + 1] + 1;
    } else if table[(i + 1) * w + j] >= table[i * w + j + 1] {
      table[i * w + j] := table[(i + 1) * w + j];
    } else {
      table[i * w + j] := table[i * w + j + 1];
    }
  }

  // ---------------------------------------------------------------- the script

  // A script for two sides that is as short as any.
  ghost predicate BestScript(s: Script, a: seq<Line>, b: seq<Line>) {
    forall t: Script :: Turns(t, a, b) ==> Edits(s) <= Edits(t)
  }

  lemma AllReplaced(a: seq<Line>, b: seq<Line>)
    ensures Turns(All(Delete, a) + All(Insert, b), a, b)
    ensures CountOf(All(Delete, a) + All(Insert, b), Equal) == 0
  {
    AllSides(Delete, a);
    AllSides(Insert, b);
    hide Old, New, CountOf, All;
    OldConcat(All(Delete, a), All(Insert, b));
    NewConcat(All(Delete, a), All(Insert, b));
    CountConcat(All(Delete, a), All(Insert, b), Equal);
  }

  // What the middle becomes: the first of all shortest scripts within the bound of the table, everything
  // replaced beyond it.
  ghost predicate IsMiddle(s: Script, a: seq<Line>, b: seq<Line>) {
    if |a| * |b| <= 4_000_000 then FirstOfShortest(s, a, b) else s == All(Delete, a) + All(Insert, b)
  }

  lemma MiddleFacts(s: Script, a: seq<Line>, b: seq<Line>)
    requires IsMiddle(s, a, b)
    ensures Turns(s, a, b) && (|a| * |b| <= MAX_DIFF_CELLS ==> CountOf(s, Equal) == Lcs(a, b))
  {
    AllReplaced(a, b);
    SideLengths(s);
    hide Lcs, CountOf, Old, New;
  }

  lemma ReplacedDeletesFirst(a: seq<Line>, b: seq<Line>)
    ensures DeletesFirst(All(Delete, a) + All(Insert, b))
  {
  }

  // With one side empty there is one script.
  lemma OneSideReplaced(a: seq<Line>, b: seq<Line>)
    requires a == [] || b == []
    ensures All(Delete, a) + All(Insert, b) == First(a, b)
  {
    assert All(Insert, []) == [] == All(Delete, []);
  }

  method DiffMiddle(a: seq<Line>, b: seq<Line>) returns (out: Script)
    ensures IsMiddle(out, a, b) && DeletesFirst(out)
  {
    FirstIsFirst(a, b);
    FirstDeletesFirst(a, b);
    ReplacedDeletesFirst(a, b);
    hide Turns, CountOf, Lcs, First, FirstOfShortest, DeletesFirst;
    if |a| == 0 && |b| == 0 {
      OneSideReplaced(a, b);
      assert All(Delete, a) + All(Insert, b) == [];
      return [];
    }
    if |a| == 0 || |b| == 0 || |a| * |b| > MAX_DIFF_CELLS {
      if |a| == 0 || |b| == 0 {
        OneSideReplaced(a, b);
      }
      return All(Delete, a) + All(Insert, b);
    }
    var table := FillTable(a, b);
    out := Walk(a, b, table);
  }

  // The script so far, followed by the first script for what is left of the sides, is the first script.
  ghost predicate Reached(out: Script, a: seq<Line>, b: seq<Line>, i: nat, j: nat) {
    i <= |a| && j <= |b| && out + First(a[i..], b[j..]) == First(a, b)
  }

  lemma NothingReached(a: seq<Line>, b: seq<Line>)
    ensures Reached([], a, b, 0, 0)
  {
    assert a[0..] == a && b[0..] == b;
  }

  // One turn of the walk.
  lemma Step(out: Script, a: seq<Line>, b: seq<Line>, i: nat, j: nat)
    requires Reached(out, a, b, i, j) && i < |a| && j < |b|
    ensures if a[i] == b[j] then Reached(out + [Edit(Equal, a[i])], a, b, i + 1, j + 1)
            else if Lcs(a[i + 1..], b[j..]) >= Lcs(a[i..], b[j + 1..]) then
              Reached(out + [Edit(Delete, a[i])], a, b, i + 1, j)
            else Reached(out + [Edit(Insert, b[j])], a, b, i, j + 1)
  {
    hide *;
    assert a[i..][1..] == a[i + 1..] && b[j..][1..] == b[j + 1..];
    FirstUnfolds(a[i..], b[j..]);
    NextReached(out, a, b, i, j);
  }

  // One more edit of the first script leads on.
  lemma NextReached(out: Script, a: seq<Line>, b: seq<Line>, i: nat, j: nat)
    requires Reached(out, a, b, i, j) && First(a[i..], b[j..]) != []
    ensures var s := First(a[i..], b[j..]);
            && (i < |a| && j < |b| && s[1..] == First(a[i + 1..], b[j + 1..]) ==>
                  Reached(out + [s[0]], a, b, i + 1, j + 1))
            && (i < |a| && s[1..] == First(a[i + 1..], b[j..]) ==> Reached(out + [s[0]], a, b, i + 1, j))
            && (j < |b| && s[1..] == First(a[i..], b[j + 1..]) ==> Reached(out + [s[0]], a, b, i, j + 1))
  {
    hide First;
    var s := First(a[i..], b[j..]);
    assert s == [s[0]] + s[1..];
    assert out + [s[0]] + s[1..] == First(a, b);
  }

  lemma DeleteRest(out: Script, a: seq<Line>, b: seq<Line>, i: nat, j: nat)
    requires Reached(out, a, b, i, j) && i < |a| && j == |b|
    ensures Reached(out + [Edit(Delete, a[i])], a, b, i + 1, j)
  {
    hide *;
    assert a[i..][1..] == a[i + 1..];
    FirstUnfolds(a[i..], b[j..]);
    NextReached(out, a, b, i, j);
  }

  lemma InsertRest(out: Script, a: seq<Line>, b: seq<Line>, i: nat, j: nat)
    requires Reached(out, a, b, i, j) && i == |a| && j < |b|
    ensures Reached(out + [Edit(Insert, b[j])], a, b, i, j + 1)
  {
    hide *;
    assert b[j..][1..] == b[j + 1..];
    FirstUnfolds(a[i..], b[j..]);
    NextReached(out, a, b, i, j);
  }

  lemma AllReached(out: Script, a: seq<Line>, b: seq<Line>)
    requires Reached(out, a, b, |a|, |b|)
    ensures out == First(a, b)
  {
  }

  method Walk(a: seq<Line>, b: seq<Line>, table: array<int32>) returns (out: Script)
    requires Filled(table[..], a, b, 0, 0)
    ensures FirstOfShortest(out, a, b) && out == First(a, b)
  {
    hide FirstOfShortest, First, Lcs, Reached;
    FirstIsFirst(a, b);
    NothingReached(a, b);
    var w := |b| + 1;
    var i, j := 0, 0;
    out := [];
    while i < |a| && j < |b|
      invariant i <= |a| && j <= |b| && Reached(out, a, b, i, j)
    {
      Step(out, a, b, i, j);
      assert Holds(table[..], a, b, i + 1, j) && Holds(table[..], a, b, i, j + 1);
      if a[i] == b[j] {
        out := out + [Edit(Equal, a[i])];
        i, j := i + 1, j + 1;
      } else if table[(i + 1) * w + j] >= table[i * w + j + 1] {
        out := out + [Edit(Delete, a[i])];
        i := i + 1;
      } else {
        out := out + [Edit(Insert, b[j])];
        j := j + 1;
      }
    }
    while i < |a|
      invariant i <= |a| && j <= |b| && (i == |a| || j == |b|) && Reached(out, a, b, i, j)
    {
      DeleteRest(out, a, b, i, j);
      out := out + [Edit(Delete, a[i])];
      i := i + 1;
    }
    while j < |b|
      invariant j <= |b| && Reached(out, a, b, |a|, j)
    {
      InsertRest(out, a, b, i, j);
      out := out + [Edit(Insert, b[j])];
      j := j + 1;
    }
    AllReached(out, a, b);
  }

  lemma FramedSides(h: seq<Line>, middle: Script, t: seq<Line>, x: seq<Line>, y: seq<Line>)
    requires Turns(middle, x, y)
    ensures var out := All(Equal, h) + middle + All(Equal, t);
            && Turns(out, h + x + t, h + y + t)
            && CountOf(out, Equal) == |h| + CountOf(middle, Equal) + |t|
  {
    var head, tail := All(Equal, h), All(Equal, t);
    AllSides(Equal, h);
    AllSides(Equal, t);
    OldConcat(head, middle);
    NewConcat(head, middle);
    CountConcat(head, middle, Equal);
    OldConcat(head + middle, tail);
    NewConcat(head + middle, tail);
    CountConcat(head + middle, tail, Equal);
  }

  lemma FramedScript(a: seq<Line>, b: seq<Line>, p: nat, s: nat, middle: Script)
    requires p + s <= |a| && p + s <= |b| && a[..p] == b[..p] && a[|a| - s..] == b[|b| - s..]
    requires Turns(middle, a[p..|a| - s], b[p..|b| - s])
    ensures var out := All(Equal, a[..p]) + middle + All(Equal, a[|a| - s..]);
            && Turns(out, a, b)
            && (CountOf(middle, Equal) == Lcs(a[p..|a| - s], b[p..|b| - s]) ==> CountOf(out, Equal) == Lcs(a, b))
  {
    hide Turns, CountOf, Lcs;
    var h, x, y, t := a[..p], a[p..|a| - s], b[p..|b| - s], a[|a| - s..];
    FramedSides(h, middle, t, x, y);
    LcsTrims(h, x, y, t);
    assert a == h + x + t;
    assert b == h + y + t;
  }

  lemma SameSidesNeedNoEdit(s: Script, a: seq<Line>, b: seq<Line>)
    requires Turns(s, a, b) && (a == b ==> BestScript(s, a, b))
    ensures a == b <==> Edits(s) == 0
  {
    if a == b {
      AllSides(Equal, a);
      assert Turns(All(Equal, a), a, b);
    }
    if Edits(s) == 0 {
      NoEditsNoChange(s);
    }
  }

  lemma {:induction false} NoEditsNoChange(s: Script)
    requires Edits(s) == 0
    ensures Old(s) == New(s)
  {
    if s != [] {
      NoEditsNoChange(s[1..]);
    }
  }

  lemma {:induction false} SameSidesTrimAway(a: seq<Line>, n: nat)
    requires n <= |a|
    ensures PrefixFrom(a, a, n) == |a|
    decreases |a| - n
  {
    if n < |a| {
      SameSidesTrimAway(a, n + 1);
    }
  }

  // How much of the two sides is trimmed: the longest shared head, then the longest shared tail behind it.
  ghost predicate Trimmed(a: seq<Line>, b: seq<Line>, p: nat, s: nat) {
    && p + s <= |a| && p + s <= |b| && a[..p] == b[..p] && a[|a| - s..] == b[|b| - s..]
    && (p < |a| && p < |b| ==> a[p] != b[p])
    && (p + s < |a| && p + s < |b| ==> a[|a| - 1 - s] != b[|b| - 1 - s])
  }

  function Framed(a: seq<Line>, p: nat, middle: Script, s: nat): Script
    requires p + s <= |a|
  {
    All(Equal, a[..p]) + middle + All(Equal, a[|a| - s..])
  }

  ghost predicate IsDiff(out: Script, a: seq<Line>, b: seq<Line>) {
    exists p: nat, s: nat, middle: Script | Trimmed(a, b, p, s) ::
      out == Framed(a, p, middle, s) && IsMiddle(middle, a[p..|a| - s], b[p..|b| - s])
  }

  lemma FramedDeletesFirst(a: seq<Line>, p: nat, middle: Script, s: nat)
    requires p + s <= |a| && DeletesFirst(middle)
    ensures DeletesFirst(Framed(a, p, middle, s))
  {
    var out := Framed(a, p, middle, s);
    forall i | 0 < i < |out| && out[i - 1].kind == Insert ensures out[i].kind != Delete {
      assert p <= i - 1 && out[i - 1] == middle[i - 1 - p];
      assert i < p + |middle| ==> out[i] == middle[i - p];
    }
  }

  // diffLines: between the shared head and tail stands the first of all shortest scripts, so the whole
  // turns a into b with the fewest edits; a pair too large for the table still gets a script that turns
  // a into b. A replaced line always reads as deleted, then inserted.
  method DiffLines(a: seq<Line>, b: seq<Line>) returns (out: Script)
    ensures Turns(out, a, b) && IsDiff(out, a, b) && DeletesFirst(out)
    ensures Tabulated(a, b) ==> BestScript(out, a, b) && Edits(out) == |a| + |b| - 2 * Lcs(a, b)
    ensures a == b <==> Edits(out) == 0
  {
    hide Turns, Old, New, CountOf, Lcs, Edits, PrefixFrom, SuffixFrom, Tabulated, BestScript, All, Middle;
    hide DeletesFirst, IsMiddle, IsDiff, HeadsAgree, TailsAgree, Trimmed;
    NothingTrimmed(a, b, 0);
    var prefix := 0;
    while prefix < |a| && prefix < |b| && a[prefix] == b[prefix]
      invariant prefix <= |a| && prefix <= |b| && HeadsAgree(a, b, prefix)
    {
      PrefixGrows(a, b, prefix);
      prefix := prefix + 1;
    }
    NothingTrimmed(a, b, prefix);
    var suffix := 0;
    while suffix < |a| - prefix && suffix < |b| - prefix && a[|a| - 1 - suffix] == b[|b| - 1 - suffix]
      invariant prefix + suffix <= |a| && prefix + suffix <= |b| && TailsAgree(a, b, prefix, suffix)
    {
      SuffixGrows(a, b, prefix, suffix);
      suffix := suffix + 1;
    }
    TrimmingStops(a, b, prefix, suffix);
    var middle := DiffMiddle(a[prefix..|a| - suffix], b[prefix..|b| - suffix]);
    out := All(Equal, a[..prefix]) + middle + All(Equal, a[|a| - suffix..]);
    FramedIsDiff(a, b, prefix, suffix, middle);
  }

  lemma TrimmedParts(a: seq<Line>, b: seq<Line>, p: nat, s: nat)
    requires Trimmed(a, b, p, s)
    ensures p + s <= |a| && p + s <= |b| && a[..p] == b[..p] && a[|a| - s..] == b[|b| - s..]
  {
  }

  lemma FramedIs(a: seq<Line>, p: nat, middle: Script, s: nat)
    requires p + s <= |a|
    ensures Framed(a, p, middle, s) == All(Equal, a[..p]) + middle + All(Equal, a[|a| - s..])
  {
    hide All;
  }

  lemma DiffWitness(a: seq<Line>, b: seq<Line>, p: nat, s: nat, middle: Script)
    requires Trimmed(a, b, p, s) && p + s <= |a| && p + s <= |b| && IsMiddle(middle, a[p..|a| - s], b[p..|b| - s])
    ensures IsDiff(Framed(a, p, middle, s), a, b)
  {
    hide IsMiddle, Trimmed, Framed;
  }

  lemma FramedIsDiff(a: seq<Line>, b: seq<Line>, p: nat, s: nat, middle: Script)
    requires Trimmed(a, b, p, s) && p == PrefixFrom(a, b, 0) && s == SuffixFrom(a, b, p, 0)
    requires p + s <= |a| && p + s <= |b| && IsMiddle(middle, a[p..|a| - s], b[p..|b| - s]) && DeletesFirst(middle)
    ensures var out := All(Equal, a[..p]) + middle + All(Equal, a[|a| - s..]);
            && Turns(out, a, b) && IsDiff(out, a, b) && DeletesFirst(out)
            && (Tabulated(a, b) ==> BestScript(out, a, b) && Edits(out) == |a| + |b| - 2 * Lcs(a, b))
            && (a == b <==> Edits(out) == 0)
  {
    hide *;
    TrimmedParts(a, b, p, s);
    FramedIs(a, p, middle, s);
    DiffWitness(a, b, p, s, middle);
    FramedDeletesFirst(a, p, middle, s);
    MiddleFacts(middle, a[p..|a| - s], b[p..|b| - s]);
    WholeScript(a, b, p, s, middle);
  }

  lemma WholeScript(a: seq<Line>, b: seq<Line>, p: nat, s: nat, middle: Script)
    requires p + s <= |a| && p + s <= |b| && a[..p] == b[..p] && a[|a| - s..] == b[|b| - s..]
    requires p == PrefixFrom(a, b, 0) && s == SuffixFrom(a, b, p, 0)
    requires var x, y := a[p..|a| - s], b[p..|b| - s];
             Turns(middle, x, y) && (|x| * |y| <= MAX_DIFF_CELLS ==> CountOf(middle, Equal) == Lcs(x, y))
    ensures var out := All(Equal, a[..p]) + middle + All(Equal, a[|a| - s..]);
            && Turns(out, a, b)
            && (Tabulated(a, b) ==> BestScript(out, a, b) && Edits(out) == |a| + |b| - 2 * Lcs(a, b))
            && (a == b <==> Edits(out) == 0)
  {
    assert Middle(a, b) == (a[p..|a| - s], b[p..|b| - s]);
    hide Turns, CountOf, Lcs, Edits, PrefixFrom, SuffixFrom, BestScript, All, Middle;
    FramedScript(a, b, p, s, middle);
    ScriptIsBest(All(Equal, a[..p]) + middle + All(Equal, a[|a| - s..]), a, b);
  }

  lemma ScriptIsBest(out: Script, a: seq<Line>, b: seq<Line>)
    requires Turns(out, a, b) && (Tabulated(a, b) ==> CountOf(out, Equal) == Lcs(a, b))
    ensures Tabulated(a, b) ==> BestScript(out, a, b) && Edits(out) == |a| + |b| - 2 * Lcs(a, b)
    ensures a == b <==> Edits(out) == 0
  {
    if Tabulated(a, b) {
      KeepingLcsIsMinimal(out, a, b);
    }
    if a == b {
      SameSidesTrimAway(a, 0);
      assert Tabulated(a, b);
    }
    SameSidesNeedNoEdit(out, a, b);
  }

  // countEdits
  method CountEdits(script: Script) returns (insertions: nat, deletions: nat)
    ensures insertions == CountOf(script, Insert) && deletions == CountOf(script, Delete)
    ensures insertions + |Old(script)| == deletions + |New(script)|
  {
    insertions, deletions := 0, 0;
    for i := 0 to |script|
      invariant insertions == CountOf(script[..i], Insert) && deletions == CountOf(script[..i], Delete)
    {
      assert script[..i + 1] == script[..i] + [script[i]];
      CountConcat(script[..i], [script[i]], Insert);
      CountConcat(script[..i], [script[i]], Delete);
      match script[i].kind
      case Insert => insertions := insertions + 1;
      case Delete => deletions := deletions + 1;
      case Equal =>
    }
    assert script[..|script|] == script;
    SideLengths(script);
  }
}
