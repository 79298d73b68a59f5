// Reading a unified diff and applying it: the reader's side of what runner/textdiff.go prints, in
// the form of the POSIX diff utility's "Diff -u or -U Output Format".

module Patches {
  import opened EditScripts
  import opened Options

  // A hunk with the numbers of its header as they are printed.
  datatype Hunk = Hunk(oldStart: nat, oldCount: nat, newStart: nat, newCount: nat, body: Script)

  // ---------------------------------------------------------------- applying

  // The number of lines before a range. An empty range is numbered by the line before it.
  function Before(start: nat, count: nat): int {
    if count == 0 then start else start - 1
  }

  // Copies the lines up to each hunk, checks the hunk's old lines against the file, and emits its
  // new ones. `used` old lines are consumed, `made` new ones emitted. A hunk that starts before
  // the last one ended, runs past the file, or misstates a count or a start is refused.
  function ApplyFrom(a: seq<Line>, hunks: seq<Hunk>, used: nat, made: nat): Option<seq<Line>>
    requires used <= |a|
    decreases |hunks|
  {
    if hunks == [] then Some(a[used..])
    else
      var h := hunks[0];
      var at := Before(h.oldStart, h.oldCount);
      if at < used || at + h.oldCount > |a| then None
      else if a[at..at + h.oldCount] != Old(h.body) || |New(h.body)| != h.newCount then None
      else if Before(h.newStart, h.newCount) != made + (at - used) then None
      else
        var rest := ApplyFrom(a, hunks[1..], at + h.oldCount, made + (at - used) + h.newCount);
        if rest.None? then None else Some(a[used..at] + New(h.body) + rest.value)
  }

  function Apply(a: seq<Line>, hunks: seq<Hunk>): Option<seq<Line>> {
    ApplyFrom(a, hunks, 0, 0)
  }

  // ---------------------------------------------------------------- reading

  predicate IsDecimal(c: char) { '0' <= c <= '9' }

  // Reads digits onto `n`; returns the number and what follows it.
  function ReadDigits(n: nat, s: string): (nat, string)
    decreases |s|
  {
    if s != [] && IsDecimal(s[0]) then ReadDigits(10 * n + (s[0] as int - '0' as int), s[1..]) else (n, s)
  }

  function ReadNumber(s: string): Option<(nat, string)> {
    if s != [] && IsDecimal(s[0]) then Some(ReadDigits(0, s)) else None
  }

  // A range is a start with a count, or a start alone when the count is one.
  function ReadRange(s: string): Option<(nat, nat, string)> {
    match ReadNumber(s)
    case None => None
    case Some((start, rest)) =>
      if rest != [] && rest[0] == ',' then
        match ReadNumber(rest[1..])
        case None => None
        case Some((count, tail)) => Some((start, count, tail))
      else Some((start, 1, rest))
  }

  function Expect(prefix: string, s: string): Option<string> {
    if |prefix| <= |s| && s[..|prefix|] == prefix then Some(s[|prefix|..]) else None
  }

  function ReadHeader(line: Line): Option<Hunk> {
    match Expect("@@ -", line)
    case None => None
    case Some(s) =>
      match ReadRange(s)
      case None => None
      case Some((oldStart, oldCount, t)) =>
        match Expect(" +", t)
        case None => None
        case Some(u) =>
          match ReadRange(u)
          case None => None
          case Some((newStart, newCount, v)) =>
            if v == " @@" then Some(Hunk(oldStart, oldCount, newStart, newCount, [])) else None
  }

  // Reads body lines until both counts of the header are used up.
  function ReadBody(lines: seq<Line>, oldLeft: nat, newLeft: nat): Option<(Script, seq<Line>)>
    decreases |lines|
  {
    if oldLeft == 0 && newLeft == 0 then Some(([], lines))
    else if lines == [] || lines[0] == [] then None
    else
      var mark, text := lines[0][0], lines[0][1..];
      if mark == ' ' && oldLeft > 0 && newLeft > 0 then
        Cons(Edit(Equal, text), ReadBody(lines[1..], oldLeft - 1, newLeft - 1))
      else if mark == '-' && oldLeft > 0 then Cons(Edit(Delete, text), ReadBody(lines[1..], oldLeft - 1, newLeft))
      else if mark == '+' && newLeft > 0 then Cons(Edit(Insert, text), ReadBody(lines[1..], oldLeft, newLeft - 1))
      else None
  }

  function Cons(e: Edit, rest: Option<(Script, seq<Line>)>): Option<(Script, seq<Line>)> {
    if rest.None? then None else Some(([e] + rest.value.0, rest.value.1))
  }

  function ReadHunks(lines: seq<Line>): Option<seq<Hunk>>
    decreases |lines|
  {
    if lines == [] then Some([])
    else
      match ReadHeader(lines[0])
      case None => None
      case Some(h) =>
        match ReadBody(lines[1..], h.oldCount, h.newCount)
        case None => None
        case Some((body, rest)) =>
          if |rest| >= |lines| then None
          else
            match ReadHunks(rest)
            case None => None
            case Some(hunks) => Some([h.(body := body)] + hunks)
  }

  // The lines of a text in which every line ends with a newline.
  function ReadLines(text: string, line: Line): Option<seq<Line>> {
    if text == [] then if line == [] then Some([]) else None
    else if text[0] == '\n' then
      var rest := ReadLines(text[1..], []);
      if rest.None? then None else Some([line] + rest.value)
    else ReadLines(text[1..], line + [text[0]])
  }

  function ReadPatch(text: string): Option<seq<Hunk>> {
    var lines := ReadLines(text, []);
    if lines.None? then None else ReadHunks(lines.value)
  }

  // ---------------------------------------------------------------- printing, and reading it back

  function Decimal(n: nat): string {
    if n < 10 then [(n + '0' as int) as char] else Decimal(n / 10) + [(n % 10 + '0' as int) as char]
  }

  // hunkRange, given the start and count as they are printed
  function RangeText(start: nat, count: nat): string {
    if count == 1 then Decimal(start) else Decimal(start) + "," + Decimal(count)
  }

  function HeaderText(h: Hunk): Line {
    "@@ -" + RangeText(h.oldStart, h.oldCount) + " +" + RangeText(h.newStart, h.newCount) + " @@"
  }

  function Mark(kind: Kind): char {
    match kind
    case Insert => '+'
    case Delete => '-'
    case Equal => ' '
  }

  function BodyLines(s: Script): seq<Line> {
    if s == [] then [] else [[Mark(s[0].kind)] + s[0].text] + BodyLines(s[1..])
  }

  function HunkLines(h: Hunk): seq<Line> {
    [HeaderText(h)] + BodyLines(h.body)
  }

  function PatchLines(hunks: seq<Hunk>): seq<Line> {
    if hunks == [] then [] else HunkLines(hunks[0]) + PatchLines(hunks[1..])
  }

  function JoinLines(lines: seq<Line>): string {
    if lines == [] then [] else lines[0] + "\n" + JoinLines(lines[1..])
  }

  lemma {:induction false} JoinConcat(a: seq<Line>, b: seq<Line>)
    ensures JoinLines(a + b) == JoinLines(a) + JoinLines(b)
  {
    if a == [] {
      assert a + b == b;
    } else {
      JoinConcat(a[1..], b);
      assert (a + b)[1..] == a[1..] + b;
    }
  }

  lemma {:induction false} BodyConcat(s: Script, t: Script)
    ensures BodyLines(s + t) == BodyLines(s) + BodyLines(t)
  {
    if s == [] {
      assert s + t == t;
    } else {
      BodyConcat(s[1..], t);
      assert (s + t)[1..] == s[1..] + t;
    }
  }

  lemma {:induction false} PatchConcat(a: seq<Hunk>, b: seq<Hunk>)
    ensures PatchLines(a + b) == PatchLines(a) + PatchLines(b)
  {
    hide HunkLines;
    if a == [] {
      assert a + b == b;
    } else {
      PatchConcat(a[1..], b);
      assert (a + b)[1..] == a[1..] + b && (a + b)[0] == a[0];
      Associates(HunkLines(a[0]), PatchLines(a[1..]), PatchLines(b));
    }
  }

  lemma JoinOne(lines: seq<Line>, line: Line)
    ensures JoinLines(lines + [line]) == JoinLines(lines) + line + "\n"
  {
    JoinConcat(lines, [line]);
    assert JoinLines([line]) == line + "\n" + [];
  }

  ghost predicate NoNewline(s: string) { '\n' !in s }

  ghost predicate NewlineFree(s: Script) { forall e <- s :: NoNewline(e.text) }

  // The header states the counts of the body.
  ghost predicate CountsAgree(h: Hunk) {
    |Old(h.body)| == h.oldCount && |New(h.body)| == h.newCount
  }

  lemma {:induction false} DecimalStarts(n: nat)
    ensures Decimal(n) != [] && forall c <- Decimal(n) :: IsDecimal(c)
  {
    if n >= 10 {
      DecimalStarts(n / 10);
    }
  }

  lemma {:induction false} DecimalReads(n: nat, rest: string)
    ensures ReadDigits(0, Decimal(n) + rest) == ReadDigits(n, rest)
  {
    if n < 10 {
      assert (Decimal(n) + rest)[1..] == rest;
    } else {
      var digit := [(n % 10 + '0' as int) as char];
      DecimalReads(n / 10, digit + rest);
      assert Decimal(n) + rest == Decimal(n / 10) + (digit + rest);
      assert (digit + rest)[1..] == rest;
    }
  }

  lemma NumberReads(n: nat, rest: string)
    requires rest == [] || !IsDecimal(rest[0])
    ensures ReadNumber(Decimal(n) + rest) == Some((n, rest))
  {
    DecimalStarts(n);
    DecimalReads(n, rest);
    assert (Decimal(n) + rest)[0] in Decimal(n);
  }

  lemma RangeReads(start: nat, count: nat, rest: string)
    requires rest != [] && rest[0] == ' '
    ensures ReadRange(RangeText(start, count) + rest) == Some((start, count, rest))
  {
    if count == 1 {
      NumberReads(start, rest);
    } else {
      var tail := Decimal(count) + rest;
      NumberReads(start, "," + tail);
      NumberReads(count, rest);
      assert RangeText(start, count) + rest == Decimal(start) + ("," + tail);
      assert ("," + tail)[1..] == tail;
    }
  }

  lemma ExpectReads(prefix: string, rest: string)
    ensures Expect(prefix, prefix + rest) == Some(rest)
  {
  }

  lemma HeaderReads(h: Hunk)
    ensures ReadHeader(HeaderText(h)) == Some(h.(body := []))
  {
    var right := RangeText(h.newStart, h.newCount) + " @@";
    var left := RangeText(h.oldStart, h.oldCount) + (" +" + right);
    assert HeaderText(h) == "@@ -" + left;
    ExpectReads("@@ -", left);
    RangeReads(h.oldStart, h.oldCount, " +" + right);
    ExpectReads(" +", right);
    RangeReads(h.newStart, h.newCount, " @@");
  }

  lemma {:induction false} BodyReads(s: Script, rest: seq<Line>)
    ensures ReadBody(BodyLines(s) + rest, |Old(s)|, |New(s)|) == Some((s, rest))
    decreases |s|
  {
    if s == [] {
      assert BodyLines(s) + rest == rest;
    } else {
      BodyReads(s[1..], rest);
      hide *;
      var line, more := [MarkOf(s[0])] + s[0].text, BodyLines(s[1..]) + rest;
      LineOfBody(s, rest);
      ReadOneLine(s[0], more, s[1..], rest);
      OneOldLine(s);
      assert [s[0]] + s[1..] == s;
    }
  }

  function MarkOf(e: Edit): char {
    Mark(e.kind)
  }

  lemma LineOfBody(s: Script, rest: seq<Line>)
    requires s != []
    ensures BodyLines(s) + rest == [[MarkOf(s[0])] + s[0].text] + (BodyLines(s[1..]) + rest)
  {
    hide Mark;
  }

  lemma OneOldLine(s: Script)
    requires s != []
    ensures |Old(s)| == |Old(s[1..])| + (if s[0].kind == Insert then 0 else 1)
    ensures |New(s)| == |New(s[1..])| + (if s[0].kind == Delete then 0 else 1)
  {
  }

  // One line of a body reads as the edit it prints.
  lemma ReadOneLine(e: Edit, more: seq<Line>, body: Script, rest: seq<Line>)
    requires ReadBody(more, |Old(body)|, |New(body)|) == Some((body, rest))
    ensures var o := |Old(body)| + if e.kind == Insert then 0 else 1;
            var n := |New(body)| + if e.kind == Delete then 0 else 1;
            ReadBody([[MarkOf(e)] + e.text] + more, o, n) == Some(([e] + body, rest))
  {
    hide Old, New;
    var lines := [[MarkOf(e)] + e.text] + more;
    assert lines[1..] == more && lines[0][0] == MarkOf(e) && lines[0][1..] == e.text;
  }

  lemma HunkReads(h: Hunk, rest: seq<Line>, hunks: seq<Hunk>)
    requires CountsAgree(h) && ReadHunks(rest) == Some(hunks)
    ensures ReadHunks(HunkLines(h) + rest) == Some([h] + hunks)
  {
    HeaderReads(h);
    BodyReads(h.body, rest);
    hide HeaderText, ReadHeader, BodyLines, Old, New;
    var lines := HunkLines(h) + rest;
    assert lines[0] == HeaderText(h) && lines[1..] == BodyLines(h.body) + rest;
    assert h.(body := []).(body := h.body) == h;
  }

  lemma {:induction false} HunksRead(hunks: seq<Hunk>)
    requires forall h <- hunks :: CountsAgree(h)
    ensures ReadHunks(PatchLines(hunks)) == Some(hunks)
  {
    hide CountsAgree, HunkLines, ReadHunks;
    if hunks == [] {
      NothingReads();
    } else {
      HunksRead(hunks[1..]);
      HunkReads(hunks[0], PatchLines(hunks[1..]), hunks[1..]);
      assert [hunks[0]] + hunks[1..] == hunks;
    }
  }

  lemma NothingReads()
    ensures ReadHunks([]) == Some([])
  {
  }

  lemma {:induction false} LineReads(line: Line, before: Line, rest: string)
    requires NoNewline(line)
    ensures ReadLines(line + rest, before) == ReadLines(rest, before + line)
    decreases |line|
  {
    if line == [] {
      assert line + rest == rest && before + line == before;
    } else {
      LineReads(line[1..], before + [line[0]], rest);
      assert (line + rest)[1..] == line[1..] + rest;
      assert before + [line[0]] + line[1..] == before + line;
    }
  }

  lemma {:induction false} LinesRead(lines: seq<Line>)
    requires forall line <- lines :: NoNewline(line)
    ensures ReadLines(JoinLines(lines), []) == Some(lines)
  {
    if lines != [] {
      var rest := "\n" + JoinLines(lines[1..]);
      LinesRead(lines[1..]);
      LineReads(lines[0], [], rest);
      assert JoinLines(lines) == lines[0] + rest && [] + lines[0] == lines[0] && rest[1..] == JoinLines(lines[1..]);
      assert [lines[0]] + lines[1..] == lines;
    }
  }

  lemma HeaderHasNoNewline(h: Hunk)
    ensures NoNewline(HeaderText(h))
  {
    DecimalStarts(h.oldStart);
    DecimalStarts(h.oldCount);
    DecimalStarts(h.newStart);
    DecimalStarts(h.newCount);
    assert NoNewline(RangeText(h.oldStart, h.oldCount)) && NoNewline(RangeText(h.newStart, h.newCount));
  }

  lemma {:induction false} BodyHasNoNewline(s: Script)
    requires NewlineFree(s)
    ensures forall line <- BodyLines(s) :: NoNewline(line)
  {
    if s != [] {
      assert s[0] in s;
      BodyHasNoNewline(s[1..]);
    }
  }

  lemma {:induction false} PatchHasNoNewline(hunks: seq<Hunk>)
    requires forall h <- hunks :: NewlineFree(h.body)
    ensures forall line <- PatchLines(hunks) :: NoNewline(line)
  {
    if hunks != [] {
      PatchHasNoNewline(hunks[1..]);
      HeaderHasNoNewline(hunks[0]);
      assert hunks[0] in hunks;
      BodyHasNoNewline(hunks[0].body);
    }
  }

  // Reading what was printed returns the hunks, headers and all.
  lemma PatchReads(hunks: seq<Hunk>)
    requires forall h <- hunks :: CountsAgree(h) && NewlineFree(h.body)
    ensures ReadPatch(JoinLines(PatchLines(hunks))) == Some(hunks)
  {
    PatchHasNoNewline(hunks);
    LinesRead(PatchLines(hunks));
    HunksRead(hunks);
  }
}
