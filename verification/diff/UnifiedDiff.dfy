// unifiedDiff of runner/textdiff.go: hunks with context around every change. What it prints,
// read back and applied to the old lines, gives the new lines.

module UnifiedDiff {
  import opened EditScripts
  import opened LineDiff
  import opened Options
  import opened Patches

  datatype Range = Range(first: nat, last: nat)

  // The part of the script a group of changes is printed with.
  function HunkStart(g: Range, context: nat): nat {
    if g.first < context then 0 else g.first - context
  }

  function HunkEnd(g: Range, context: nat, n: nat): nat {
    if n < g.last + 1 + context then n else g.last + 1 + context
  }

  // hunkRange: a count of lines after `before` lines, as it is numbered in a header.
  function Numbered(before: nat, count: nat): nat {
    if count == 0 then before else before + 1
  }

  function HunkAt(s: Script, start: nat, end: nat): Hunk
    requires start <= end <= |s|
  {
    var oldNo, newNo := |Old(s[..start])|, |New(s[..start])|;
    var body := s[start..end];
    Hunk(Numbered(oldNo, |Old(body)|), |Old(body)|, Numbered(newNo, |New(body)|), |New(body)|, body)
  }

  ghost predicate Unchanged(s: Script) { forall e <- s :: e.kind == Equal }

  ghost predicate GroupOk(s: Script, g: Range, upto: nat) {
    g.first <= g.last < upto <= |s|
  }

  // The groups of the first `upto` edits: in order, further apart than two contexts, and with
  // every change inside one of them.
  ghost predicate GroupsOk(s: Script, groups: seq<Range>, context: nat, upto: nat) {
    && upto <= |s|
    && (forall g <- groups :: GroupOk(s, g, upto))
    && (forall k :: 0 < k < |groups| ==> groups[k - 1].last + 2 * context + 1 < groups[k].first)
    && (forall i :: 0 <= i < upto && s[i].kind != Equal ==> exists g <- groups :: g.first <= i <= g.last)
  }

  // A group starts and ends with a change, and nowhere in it are more lines unchanged in a row than two
  // contexts hold.
  ghost predicate Tight(s: Script, g: Range, context: nat) {
    && g.first <= g.last < |s| && s[g.first].kind != Equal && s[g.last].kind != Equal
    && forall i, j :: g.first <= i < j <= g.last && Unchanged(s[i..j]) ==> j - i <= 2 * context
  }

  ghost predicate AllTight(s: Script, groups: seq<Range>, context: nat) {
    forall g <- groups :: Tight(s, g, context)
  }

  // What a hunk shows: its group, with `context` lines before its first change and after its last, or
  // as many as there are.
  ghost predicate Shows(s: Script, g: Range, context: nat, h: Hunk) {
    exists start: nat, end: nat | start <= g.first <= g.last < end <= |s| && h.body == s[start..end] ::
      && (g.first - start == context || (start == 0 && g.first < context))
      && (end - g.last - 1 == context || (end == |s| && end - g.last - 1 < context))
  }

  ghost predicate ShowsGroups(s: Script, groups: seq<Range>, context: nat, hunks: seq<Hunk>) {
    && GroupsOk(s, groups, context, |s|) && |hunks| == |groups|
    && forall k :: 0 <= k < |groups| ==> Tight(s, groups[k], context) && Shows(s, groups[k], context, hunks[k])
  }

  // Hunk boundaries in order, with nothing but unchanged lines outside them.
  ghost predicate CutsOk(s: Script, cuts: seq<Range>, from: nat)
    decreases |cuts|
  {
    if cuts == [] then from <= |s| && Unchanged(s[from..])
    else
      && from <= cuts[0].first <= cuts[0].last <= |s|
      && Unchanged(s[from..cuts[0].first])
      && CutsOk(s, cuts[1..], cuts[0].last)
  }

  function Cuts(groups: seq<Range>, context: nat, n: nat): seq<Range> {
    seq(|groups|, i requires 0 <= i < |groups| =>
      Range(HunkStart(groups[i], context), HunkEnd(groups[i], context, n)))
  }

  function HunksAt(s: Script, cuts: seq<Range>): seq<Hunk>
    requires forall c <- cuts :: c.first <= c.last <= |s|
  {
    if cuts == [] then [] else [HunkAt(s, cuts[0].first, cuts[0].last)] + HunksAt(s, cuts[1..])
  }

  lemma {:induction false} UnchangedSides(s: Script)
    requires Unchanged(s)
    ensures Old(s) == New(s)
  {
    if s != [] {
      assert s[0] in s;
      UnchangedSides(s[1..]);
    }
  }

  lemma SplitAt(s: Script, i: nat)
    requires i <= |s|
    ensures Old(s) == Old(s[..i]) + Old(s[i..]) && New(s) == New(s[..i]) + New(s[i..])
  {
    hide Old, New;
    assert s == s[..i] + s[i..];
    OldConcat(s[..i], s[i..]);
    NewConcat(s[..i], s[i..]);
  }

  lemma SplitHead(s: Script, i: nat, j: nat)
    requires i <= j <= |s|
    ensures Old(s[..j]) == Old(s[..i]) + Old(s[i..j]) && New(s[..j]) == New(s[..i]) + New(s[i..j])
  {
    hide Old, New;
    SplitAt(s[..j], i);
    assert s[..j][..i] == s[..i];
    assert s[..j][i..] == s[i..j];
  }

  lemma SplitTail(s: Script, i: nat, j: nat)
    requires i <= j <= |s|
    ensures Old(s[i..]) == Old(s[i..j]) + Old(s[j..]) && New(s[i..]) == New(s[i..j]) + New(s[j..])
  {
    SplitAt(s[i..], j - i);
    hide Old, New;
    assert s[i..][..j - i] == s[i..j];
    assert s[i..][j - i..] == s[j..];
  }

  lemma Split(s: Script, i: nat, j: nat)
    requires i <= j <= |s|
    ensures Old(s[..j]) == Old(s[..i]) + Old(s[i..j]) && New(s[..j]) == New(s[..i]) + New(s[i..j])
    ensures Old(s[i..]) == Old(s[i..j]) + Old(s[j..]) && New(s[i..]) == New(s[i..j]) + New(s[j..])
    ensures Old(s) == Old(s[..i]) + Old(s[i..])
  {
    SplitAt(s, i);
    SplitHead(s, i, j);
    SplitTail(s, i, j);
  }

  lemma {:induction false} CutsInside(s: Script, cuts: seq<Range>, from: nat)
    requires CutsOk(s, cuts, from)
    ensures from <= |s| && forall c <- cuts :: c.first <= c.last <= |s|
    decreases |cuts|
  {
    if cuts != [] {
      CutsInside(s, cuts[1..], cuts[0].last);
    }
  }

  // Applying the hunks from a cut on turns the rest of the old lines into the rest of the new.
  lemma {:induction false} HunksApply(s: Script, cuts: seq<Range>, from: nat)
    requires CutsOk(s, cuts, from) && forall c <- cuts :: c.first <= c.last <= |s|
    ensures |Old(s[..from])| <= |Old(s)|
    ensures ApplyFrom(Old(s), HunksAt(s, cuts), |Old(s[..from])|, |New(s[..from])|) == Some(New(s[from..]))
    decreases |cuts|
  {
    var a := Old(s);
    CutsInside(s, cuts, from);
    if cuts == [] {
      Split(s, from, |s|);
      UnchangedSides(s[from..]);
      assert a[|Old(s[..from])|..] == Old(s[from..]);
    } else {
      var start, end := cuts[0].first, cuts[0].last;
      HunksApply(s, cuts[1..], end);
      Split(s, from, start);
      Split(s, start, end);
      UnchangedSides(s[from..start]);
      HunkApplies(a, s, from, start, end, HunksAt(s, cuts[1..]));
    }
  }

  lemma HunkApplies(a: seq<Line>, s: Script, from: nat, start: nat, end: nat, rest: seq<Hunk>)
    requires from <= start <= end <= |s| && a == Old(s)
    requires Old(s) == Old(s[..start]) + Old(s[start..]) && Old(s[start..]) == Old(s[start..end]) + Old(s[end..])
    requires Old(s[..start]) == Old(s[..from]) + Old(s[from..start])
    requires New(s[..start]) == New(s[..from]) + New(s[from..start])
    requires Old(s[..end]) == Old(s[..start]) + Old(s[start..end])
    requires New(s[..end]) == New(s[..start]) + New(s[start..end])
    requires New(s[from..]) == New(s[from..start]) + New(s[start..])
    requires New(s[start..]) == New(s[start..end]) + New(s[end..])
    requires Old(s[from..start]) == New(s[from..start])
    requires |Old(s[..end])| <= |a| && ApplyFrom(a, rest, |Old(s[..end])|, |New(s[..end])|) == Some(New(s[end..]))
    ensures |Old(s[..from])| <= |a|
    ensures ApplyFrom(a, [HunkAt(s, start, end)] + rest, |Old(s[..from])|, |New(s[..from])|) == Some(New(s[from..]))
  {
    hide Old, New;
    var used, at := |Old(s[..from])|, |Old(s[..start])|;
    var h := HunkAt(s, start, end);
    var hunks := [h] + rest;
    assert hunks[0] == h && hunks[1..] == rest;
    assert Before(h.oldStart, h.oldCount) == at && Before(h.newStart, h.newCount) == |New(s[..start])|;
    assert a[at..at + h.oldCount] == Old(s[start..end]);
    assert a[used..at] == New(s[from..start]);
    assert New(s[from..]) == New(s[from..start]) + New(s[start..end]) + New(s[end..]);
  }

  lemma {:induction false} HunksPrint(s: Script, cuts: seq<Range>)
    requires forall c <- cuts :: c.first <= c.last <= |s|
    ensures forall h <- HunksAt(s, cuts) :: CountsAgree(h) && (NewlineFree(s) ==> NewlineFree(h.body))
  {
    if cuts != [] {
      HunksPrint(s, cuts[1..]);
    }
  }

  // Groups further apart than two contexts make hunks that do not overlap.
  lemma {:induction false} GroupsCut(s: Script, groups: seq<Range>, context: nat, k: nat, from: nat)
    requires GroupsOk(s, groups, context, |s|) && k <= |groups| && from <= |s|
    requires k < |groups| ==> from <= HunkStart(groups[k], context)
    requires forall i :: from <= i < |s| && s[i].kind != Equal ==> exists g <- groups[k..] :: g.first <= i <= g.last
    ensures CutsOk(s, Cuts(groups, context, |s|)[k..], from)
    decreases |groups| - k
  {
    var cuts := Cuts(groups, context, |s|);
    if k < |groups| {
      LaterGroupsStartLater(s, groups, context, k);
      var g := groups[k];
      var start, end := HunkStart(g, context), HunkEnd(g, context, |s|);
      assert g in groups;
      assert cuts[k..][0] == Range(start, end) && cuts[k..][1..] == cuts[k + 1..];
      assert groups[k..] == [g] + groups[k + 1..];
      hide GroupsOk;
      GroupsCut(s, groups, context, k + 1, end);
    }
  }

  lemma {:induction false} LaterGroupsStartLater(s: Script, groups: seq<Range>, context: nat, k: nat)
    requires GroupsOk(s, groups, context, |s|) && k < |groups|
    ensures forall g <- groups[k..] :: groups[k].first <= g.first
    ensures k + 1 < |groups| ==> HunkEnd(groups[k], context, |s|) <= HunkStart(groups[k + 1], context)
    decreases |groups| - k
  {
    hide *;
    assert groups[k..] == [groups[k]] + groups[k + 1..];
    if k + 1 < |groups| {
      LaterGroupsStartLater(s, groups, context, k + 1);
      NextGroupStartsLater(s, groups, context, k);
    }
  }

  lemma NextGroupStartsLater(s: Script, groups: seq<Range>, context: nat, k: nat)
    requires GroupsOk(s, groups, context, |s|) && k + 1 < |groups|
    ensures groups[k].first <= groups[k + 1].first
    ensures HunkEnd(groups[k], context, |s|) <= HunkStart(groups[k + 1], context)
  {
    assert groups[k] in groups && groups[k + 1] in groups;
    assert groups[k + 1 - 1].last + 2 * context + 1 < groups[k + 1].first;
  }

  // ---------------------------------------------------------------- the printer

  // Running line counts of both sides.
  ghost predicate NumbersLines(s: Script, oldNo: array<nat>, newNo: array<nat>)
    reads oldNo, newNo
  {
    && oldNo.Length == newNo.Length == |s| + 1
    && forall i :: 0 <= i <= |s| ==> oldNo[i] == |Old(s[..i])| && newNo[i] == |New(s[..i])|
  }

  lemma NoLinesYet()
    ensures Old([]) == [] && New([]) == []
  {
  }

  method NumberLines(s: Script) returns (oldNo: array<nat>, newNo: array<nat>)
    ensures NumbersLines(s, oldNo, newNo)
  {
    hide Old, New, CountOf;
    NoLinesYet();
    assert s[..0] == [] && s[..|s|] == s;
    oldNo, newNo := new nat[|s| + 1](_ => 0), new nat[|s| + 1](_ => 0);
    var o, n := 0, 0;
    for i := 0 to |s|
      invariant o == |Old(s[..i])| && n == |New(s[..i])|
      invariant forall k :: 0 <= k < i ==> oldNo[k] == |Old(s[..k])| && newNo[k] == |New(s[..k])|
    {
      oldNo[i], newNo[i] := o, n;
      assert s[..i + 1] == s[..i] + [s[i]];
      AppendEdit(s[..i], s[i]);
      if s[i].kind != Insert {
        o := o + 1;
      }
      if s[i].kind != Delete {
        n := n + 1;
      }
    }
    oldNo[|s|], newNo[|s|] := o, n;
  }

  method GroupChanges(s: Script, context: nat) returns (groups: seq<Range>)
    ensures GroupsOk(s, groups, context, |s|) && AllTight(s, groups, context)
    ensures groups == [] <==> Unchanged(s)
  {
    hide AllTight;
    groups := [];
    NoneIsTight(s, context);
    for i := 0 to |s|
      invariant GroupsOk(s, groups, context, i) && AllTight(s, groups, context)
      invariant groups != [] ==> exists k :: 0 <= k < i && s[k].kind != Equal
    {
      if s[i].kind != Equal {
        var last := |groups| - 1;
        if |groups| > 0 && i - groups[last].last - 1 <= 2 * context {
          GroupGrows(s, groups, context, i);
          assert groups[last] in groups;
          TightGrows(s, groups, context, i);
          groups := groups[last := groups[last].(last := i)];
        } else {
          GroupStarts(s, groups, context, i);
          OneIsTight(s, groups, context, i);
          groups := groups + [Range(i, i)];
        }
      }
    }
  }

  lemma GroupGrows(s: Script, groups: seq<Range>, context: nat, i: nat)
    requires GroupsOk(s, groups, context, i) && i < |s| && |groups| > 0
    ensures var last := |groups| - 1;
            GroupsOk(s, groups[last := groups[last].(last := i)], context, i + 1)
  {
    var last := |groups| - 1;
    var grown := groups[last := groups[last].(last := i)];
    assert groups[last] in groups;
    forall k | 0 <= k < i + 1 && s[k].kind != Equal ensures exists g <- grown :: g.first <= k <= g.last {
      if k == i {
        assert grown[last] in grown;
      } else {
        var g :| g in groups && g.first <= k <= g.last;
        var m :| 0 <= m < |groups| && groups[m] == g;
        assert grown[m] in grown && grown[m].first <= k <= grown[m].last;
      }
    }
    forall g <- grown ensures GroupOk(s, g, i + 1) {
      var m :| 0 <= m < |grown| && grown[m] == g;
      assert groups[m] in groups;
    }
  }

  lemma NoneIsTight(s: Script, context: nat)
    ensures AllTight(s, [], context)
  {
  }

  lemma OneIsTight(s: Script, groups: seq<Range>, context: nat, i: nat)
    requires i < |s| && s[i].kind != Equal && AllTight(s, groups, context)
    ensures AllTight(s, groups + [Range(i, i)], context)
  {
  }

  lemma NotUnchanged(s: Script, j: nat, k: nat, at: nat)
    requires j <= at < k <= |s| && s[at].kind != Equal
    ensures !Unchanged(s[j..k])
  {
    assert s[j..k][at - j] == s[at];
  }

  lemma TightGrows(s: Script, groups: seq<Range>, context: nat, i: nat)
    requires AllTight(s, groups, context) && groups != [] && i < |s| && s[i].kind != Equal
    requires var g := groups[|groups| - 1]; g.last < i && i - g.last - 1 <= 2 * context
    ensures AllTight(s, groups[|groups| - 1 := groups[|groups| - 1].(last := i)], context)
  {
    var g := groups[|groups| - 1];
    assert g in groups;
    forall j, k | g.first <= j < k <= i ensures Unchanged(s[j..k]) ==> k - j <= 2 * context {
      if j <= g.last < k {
        NotUnchanged(s, j, k, g.last);
      }
    }
  }

  lemma GroupStarts(s: Script, groups: seq<Range>, context: nat, i: nat)
    requires GroupsOk(s, groups, context, i) && i < |s|
    requires |groups| > 0 ==> groups[|groups| - 1].last + 2 * context + 1 < i
    ensures GroupsOk(s, groups + [Range(i, i)], context, i + 1)
  {
  }

  // hunkRange
  function HunkRange(start: nat, count: nat): (r: string)
    ensures r == RangeText(Numbered(start, count), count)
  {
    if count == 0 then Decimal(start) + ",0"
    else if count == 1 then Decimal(start + 1)
    else Decimal(start + 1) + "," + Decimal(count)
  }

  method PrintHunk(s: Script, start: nat, end: nat, oldNo: array<nat>, newNo: array<nat>) returns (text: string)
    requires start <= end <= |s| && NumbersLines(s, oldNo, newNo)
    ensures text == JoinLines(HunkLines(HunkAt(s, start, end)))
  {
    hide HunkAt, Old, New, HeaderText, JoinLines, HunkRange;
    PrintedHeader(s, start, end, oldNo[start], oldNo[end], newNo[start], newNo[end]);
    var header := "@@ -" + HunkRange(oldNo[start], oldNo[end] - oldNo[start]) + " +"
                  + HunkRange(newNo[start], newNo[end] - newNo[start]) + " @@";
    HunkLinesAre(s, start, end);
    text := PrintBody(s, start, end, header);
  }

  lemma PrintedHeader(s: Script, start: nat, end: nat, oldFrom: nat, oldTo: nat, newFrom: nat, newTo: nat)
    requires start <= end <= |s|
    requires oldFrom == |Old(s[..start])| && oldTo == |Old(s[..end])|
    requires newFrom == |New(s[..start])| && newTo == |New(s[..end])|
    ensures oldFrom <= oldTo && newFrom <= newTo
    ensures HeaderText(HunkAt(s, start, end)) ==
            "@@ -" + HunkRange(oldFrom, oldTo - oldFrom) + " +" + HunkRange(newFrom, newTo - newFrom) + " @@"
  {
    hide Old, New, HunkRange, RangeText;
    SplitHead(s, start, end);
  }

  lemma HunkLinesAre(s: Script, start: nat, end: nat)
    requires start <= end <= |s|
    ensures HunkLines(HunkAt(s, start, end)) == [HeaderText(HunkAt(s, start, end))] + BodyLines(s[start..end])
  {
  }

  method PrintBody(s: Script, start: nat, end: nat, header: Line) returns (text: string)
    requires start <= end <= |s|
    ensures text == JoinLines([header] + BodyLines(s[start..end]))
  {
    hide JoinLines;
    text := header + "\n";
    JoinHeader(header);
    assert s[start..start] == [] && [header] == [header] + BodyLines([]);
    for k := start to end
      invariant text == JoinLines([header] + BodyLines(s[start..k]))
    {
      text := text + [Mark(s[k].kind)] + s[k].text + "\n";
      BodyGrows(s, start, k, header);
    }
  }

  lemma JoinHeader(header: Line)
    ensures JoinLines([header]) == header + "\n"
  {
  }

  lemma MarkInFront(before: string, mark: char, line: Line)
    ensures before + ([mark] + line) == before + [mark] + line
  {
  }

  lemma OneBodyLine(e: Edit)
    ensures BodyLines([e]) == [[Mark(e.kind)] + e.text]
  {
  }

  lemma BodyGrows(s: Script, start: nat, k: nat, header: Line)
    requires start <= k < |s|
    ensures JoinLines([header] + BodyLines(s[start..k + 1])) ==
            JoinLines([header] + BodyLines(s[start..k])) + [Mark(s[k].kind)] + s[k].text + "\n"
  {
    hide JoinLines, BodyLines;
    var line, before := [Mark(s[k].kind)] + s[k].text, [header] + BodyLines(s[start..k]);
    BodyConcat(s[start..k], [s[k]]);
    OneBodyLine(s[k]);
    assert s[start..k + 1] == s[start..k] + [s[k]];
    assert [header] + BodyLines(s[start..k + 1]) == before + [line];
    JoinOne(before, line);
    MarkInFront(JoinLines(before), Mark(s[k].kind), s[k].text);
  }

  lemma {:induction false} HunksConcat(s: Script, a: seq<Range>, b: seq<Range>)
    requires forall c <- a + b :: c.first <= c.last <= |s|
    requires forall c <- a :: c.first <= c.last <= |s|
    requires forall c <- b :: c.first <= c.last <= |s|
    ensures HunksAt(s, a + b) == HunksAt(s, a) + HunksAt(s, b)
  {
    hide HunkAt;
    if a == [] {
      assert a + b == b;
    } else {
      assert a[0] in a;
      assert (a + b)[1..] == a[1..] + b && (a + b)[0] == a[0];
      HunksConcat(s, a[1..], b);
    }
  }

  // unifiedDiff: every hunk can be read back, and applying them all to the old lines gives the
  // new ones; nothing is printed exactly when there is no change.
  method UnifiedDiff(s: Script, context: nat) returns (text: string)
    ensures NewlineFree(s) ==> ReadPatch(text).Some? && Apply(Old(s), ReadPatch(text).value) == Some(New(s))
    ensures NewlineFree(s) ==> exists groups :: ShowsGroups(s, groups, context, ReadPatch(text).value)
    ensures text == "" <==> Edits(s) == 0
  {
    hide AllTight, ShowsGroups;
    hide JoinLines, PatchLines, HunkLines, HunkAt, HunksAt, Old, New, ReadPatch, Edits, CutsOk, GroupsOk, Unchanged;
    var oldNo, newNo := NumberLines(s);
    var groups := GroupChanges(s, context);
    ghost var cuts := Cuts(groups, context, |s|);
    CutsOfGroups(s, groups, context);
    text := "";
    NothingPrinted(s);
    for k := 0 to |groups|
      invariant NumbersLines(s, oldNo, newNo)
      invariant text == JoinLines(PatchLines(HunksAt(s, cuts[..k])))
    {
      assert cuts[k] in cuts;
      var start, end := HunkStart(groups[k], context), HunkEnd(groups[k], context, |s|);
      var printed := PrintHunk(s, start, end, oldNo, newNo);
      text := text + printed;
      TextGrows(s, cuts, k);
    }
    assert cuts[..|groups|] == cuts;
    PatchRoundTrip(s, cuts);
    HunksShow(s, groups, context);
    EmptyText(s, cuts);
    UnchangedIsNoEdit(s);
  }

  lemma {:induction false} HunkOf(s: Script, cuts: seq<Range>, k: nat)
    requires k < |cuts| && forall c <- cuts :: c.first <= c.last <= |s|
    ensures |HunksAt(s, cuts)| == |cuts| && HunksAt(s, cuts)[k] == HunkAt(s, cuts[k].first, cuts[k].last)
  {
    hide HunkAt;
    if k > 0 {
      HunkOf(s, cuts[1..], k - 1);
    } else if |cuts| > 1 {
      HunkOf(s, cuts[1..], 0);
    }
  }

  lemma HunksShow(s: Script, groups: seq<Range>, context: nat)
    requires GroupsOk(s, groups, context, |s|) && AllTight(s, groups, context)
    ensures var cuts := Cuts(groups, context, |s|);
            && (forall c <- cuts :: c.first <= c.last <= |s|)
            && ShowsGroups(s, groups, context, HunksAt(s, cuts))
  {
    hide Tight;
    var cuts := Cuts(groups, context, |s|);
    CutsOfGroups(s, groups, context);
    forall k | 0 <= k < |groups|
      ensures |HunksAt(s, cuts)| == |groups| && Tight(s, groups[k], context)
      ensures Shows(s, groups[k], context, HunksAt(s, cuts)[k])
    {
      assert groups[k] in groups;
      HunkOf(s, cuts, k);
      HunkShows(s, groups[k], context);
    }
  }

  lemma HunkShows(s: Script, g: Range, context: nat)
    requires g.first <= g.last < |s|
    ensures Shows(s, g, context, HunkAt(s, HunkStart(g, context), HunkEnd(g, context, |s|)))
  {
    var start, end := HunkStart(g, context), HunkEnd(g, context, |s|);
    assert HunkAt(s, start, end).body == s[start..end];
  }

  lemma NothingPrinted(s: Script)
    ensures JoinLines(PatchLines(HunksAt(s, []))) == ""
  {
  }

  lemma OneHunkAt(s: Script, cut: Range)
    requires cut.first <= cut.last <= |s|
    ensures HunksAt(s, [cut]) == [HunkAt(s, cut.first, cut.last)]
  {
  }

  lemma OneHunkLines(h: Hunk)
    ensures PatchLines([h]) == HunkLines(h)
  {
  }

  lemma TextGrows(s: Script, cuts: seq<Range>, k: nat)
    requires k < |cuts| && forall c <- cuts :: c.first <= c.last <= |s|
    ensures JoinLines(PatchLines(HunksAt(s, cuts[..k + 1]))) ==
            JoinLines(PatchLines(HunksAt(s, cuts[..k]))) + JoinLines(HunkLines(HunkAt(s, cuts[k].first, cuts[k].last)))
  {
    hide *;
    var h, before := HunkAt(s, cuts[k].first, cuts[k].last), HunksAt(s, cuts[..k]);
    assert cuts[..k + 1] == cuts[..k] + [cuts[k]];
    HunksConcat(s, cuts[..k], [cuts[k]]);
    OneHunkAt(s, cuts[k]);
    PatchConcat(before, [h]);
    OneHunkLines(h);
    JoinConcat(PatchLines(before), HunkLines(h));
  }

  lemma CutsOfGroups(s: Script, groups: seq<Range>, context: nat)
    requires GroupsOk(s, groups, context, |s|)
    ensures var cuts := Cuts(groups, context, |s|);
            CutsOk(s, cuts, 0) && forall c <- cuts :: c.first <= c.last <= |s|
  {
    var cuts := Cuts(groups, context, |s|);
    assert groups[0..] == groups && cuts[0..] == cuts;
    GroupsCut(s, groups, context, 0, 0);
    CutsInside(s, cuts, 0);
  }

  lemma PatchRoundTrip(s: Script, cuts: seq<Range>)
    requires CutsOk(s, cuts, 0) && forall c <- cuts :: c.first <= c.last <= |s|
    ensures var text := JoinLines(PatchLines(HunksAt(s, cuts)));
            NewlineFree(s) ==> ReadPatch(text) == Some(HunksAt(s, cuts))
    ensures Apply(Old(s), HunksAt(s, cuts)) == Some(New(s))
  {
    HunksPrint(s, cuts);
    HunksApply(s, cuts, 0);
    assert s[0..] == s;
    if NewlineFree(s) {
      PatchReads(HunksAt(s, cuts));
    }
  }

  lemma EmptyText(s: Script, cuts: seq<Range>)
    requires forall c <- cuts :: c.first <= c.last <= |s|
    ensures JoinLines(PatchLines(HunksAt(s, cuts))) == "" <==> cuts == []
  {
  }

  lemma {:induction false} UnchangedIsNoEdit(s: Script)
    ensures Unchanged(s) <==> Edits(s) == 0
  {
    if s != [] {
      UnchangedIsNoEdit(s[1..]);
      assert s == [s[0]] + s[1..];
    }
  }

  // ---------------------------------------------------------------- whole files

  // strings.Split on newlines, of text that does not end with one
  function SplitOnNewline(text: string, line: Line): (lines: seq<Line>)
    ensures lines != []
  {
    if text == [] then [line]
    else if text[0] == '\n' then [line] + SplitOnNewline(text[1..], [])
    else SplitOnNewline(text[1..], line + [text[0]])
  }

  function TrimSuffix(text: string): string {
    if text != [] && text[|text| - 1] == '\n' then text[..|text| - 1] else text
  }

  // splitLines
  function SplitLines(data: string): seq<Line> {
    if data == [] then [] else SplitOnNewline(TrimSuffix(data), [])
  }

  // strings.Join with newlines
  function JoinOnNewline(lines: seq<Line>): string {
    if lines == [] then []
    else if |lines| == 1 then lines[0]
    else lines[0] + "\n" + JoinOnNewline(lines[1..])
  }

  lemma JoinsLine(line: Line, rest: seq<Line>)
    requires rest != []
    ensures JoinOnNewline([line] + rest) == line + ("\n" + JoinOnNewline(rest))
  {
    assert ([line] + rest)[1..] == rest;
  }

  lemma {:induction false} SplitJoins(text: string, line: Line)
    ensures JoinOnNewline(SplitOnNewline(text, line)) == line + text
    decreases |text|
  {
    if text == [] {
      assert line + text == line;
    } else if text[0] == '\n' {
      var rest := SplitOnNewline(text[1..], []);
      SplitJoins(text[1..], []);
      JoinsLine(line, rest);
      hide JoinOnNewline;
      assert [] + text[1..] == text[1..];
      assert text == "\n" + text[1..];
    } else {
      hide JoinOnNewline;
      SplitJoins(text[1..], line + [text[0]]);
      assert line + [text[0]] + text[1..] == line + text;
    }
  }

  lemma {:induction false} SplitFree(text: string, line: Line)
    requires NoNewline(line)
    ensures forall l <- SplitOnNewline(text, line) :: NoNewline(l)
    decreases |text|
  {
    if text != [] {
      if text[0] == '\n' {
        SplitFree(text[1..], []);
      } else {
        SplitFree(text[1..], line + [text[0]]);
      }
    }
  }

  // The lines of a file hold no newline and keep all of it but a final newline.
  lemma SplitLinesKeepsText(data: string)
    ensures JoinOnNewline(SplitLines(data)) == TrimSuffix(data)
    ensures data == TrimSuffix(data) + if data != "" && data[|data| - 1] == '\n' then "\n" else ""
    ensures SplitLines(data) == [] <==> data == ""
    ensures forall l <- SplitLines(data) :: NoNewline(l)
  {
    if data != [] {
      SplitJoins(TrimSuffix(data), []);
      SplitFree(TrimSuffix(data), []);
    }
  }

  lemma {:induction false} SidesNewlineFree(s: Script)
    requires (forall l <- Old(s) :: NoNewline(l)) && (forall l <- New(s) :: NoNewline(l))
    ensures NewlineFree(s)
  {
    if s != [] {
      assert s[0].kind != Insert ==> Old(s)[0] in Old(s);
      assert s[0].kind != Delete ==> New(s)[0] in New(s);
      assert forall l <- Old(s[1..]) :: l in Old(s);
      assert forall l <- New(s[1..]) :: l in New(s);
      SidesNewlineFree(s[1..]);
    }
  }

  // The counts are those of the diff, and the hunks show all of it with three lines of context.
  ghost predicate ReportsDiff(a: seq<Line>, b: seq<Line>, insertions: nat, deletions: nat, hunks: seq<Hunk>) {
    exists script, groups | IsDiff(script, a, b) && ShowsGroups(script, groups, 3, hunks) ::
      && insertions == CountOf(script, Insert) && deletions == CountOf(script, Delete)
      && insertions + |a| == deletions + |b|
  }

  // A file of the pack report: its counts, and its hunks with three lines of context.
  method DiffFiles(oldData: string, newData: string) returns (insertions: nat, deletions: nat, text: string)
    ensures var patch := ReadPatch(text);
            patch.Some? && Apply(SplitLines(oldData), patch.value) == Some(SplitLines(newData))
    ensures text == "" <==> TrimSuffix(oldData) == TrimSuffix(newData) && (oldData == "" <==> newData == "")
    ensures ReportsDiff(SplitLines(oldData), SplitLines(newData), insertions, deletions, ReadPatch(text).value)
  {
    hide ShowsGroups;
    var a, b := SplitLines(oldData), SplitLines(newData);
    var script := DiffLines(a, b);
    insertions, deletions := CountEdits(script);
    SplitLinesKeepsText(oldData);
    SplitLinesKeepsText(newData);
    SidesNewlineFree(script);
    text := UnifiedDiff(script, 3);
    assert a == b ==> (oldData == "" <==> newData == "");
  }
}
