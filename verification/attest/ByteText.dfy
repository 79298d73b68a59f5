// The byte-string helpers the attestation encodings are written with: the bytewise order of
// sort.Strings, cutting, splitting and joining.

module ByteText {
  import opened ByteSeqs

  const AMPERSAND: byte := 0x26
  const EQUALS: byte := 0x3D
  const QUESTION: byte := 0x3F
  const PERCENT: byte := 0x25

  predicate IsAscii(s: string) {
    forall i :: 0 <= i < |s| ==> s[i] as int < 128
  }

  function Ascii(s: string): (r: Bytes)
    requires IsAscii(s)
    ensures |r| == |s| && forall i :: 0 <= i < |s| ==> r[i] == s[i] as int < 128
  {
    seq<byte>(|s|, i requires 0 <= i < |s| && s[i] as int < 128 => s[i] as int)
  }

  // ---------------------------------------------------------------- order

  // Bytewise order, a proper prefix first.
  predicate Before(a: Bytes, b: Bytes) {
    b != [] && (a == [] || a[0] < b[0] || (a[0] == b[0] && Before(a[1..], b[1..])))
  }

  lemma {:induction false} BeforeIsStrict(a: Bytes, b: Bytes)
    requires Before(a, b)
    ensures a != b && !Before(b, a)
  {
    if a != [] && a[0] == b[0] {
      BeforeIsStrict(a[1..], b[1..]);
    }
  }

  lemma {:induction false} BeforeIsTotal(a: Bytes, b: Bytes)
    ensures Before(a, b) || Before(b, a) || a == b
  {
    if a != [] && b != [] && a[0] == b[0] {
      BeforeIsTotal(a[1..], b[1..]);
      assert a == [a[0]] + a[1..] && b == [b[0]] + b[1..];
    }
  }

  lemma {:induction false} BeforeIsTransitive(a: Bytes, b: Bytes, c: Bytes)
    requires Before(a, b) && Before(b, c)
    ensures Before(a, c)
  {
    if a != [] && a[0] == b[0] && b[0] == c[0] {
      BeforeIsTransitive(a[1..], b[1..], c[1..]);
    }
  }

  ghost predicate Sorted(s: seq<Bytes>) {
    forall i, j :: 0 <= i < j < |s| ==> !Before(s[j], s[i])
  }

  function Insert(x: Bytes, s: seq<Bytes>): seq<Bytes> {
    if s == [] || !Before(s[0], x) then [x] + s else [s[0]] + Insert(x, s[1..])
  }

  function Sort(s: seq<Bytes>): seq<Bytes> {
    if s == [] then [] else Insert(s[0], Sort(s[1..]))
  }

  // Nothing in a sorted list comes before what does not come after its head.
  lemma HeadIsLeast(s: seq<Bytes>, x: Bytes, j: nat)
    requires Sorted(s) && j < |s| && !Before(s[0], x)
    ensures !Before(s[j], x)
  {
    hide Before;
    if Before(s[j], x) && j > 0 {
      BeforeIsTotal(s[0], s[j]);
      if Before(s[0], s[j]) {
        BeforeIsTransitive(s[0], s[j], x);
      }
    }
  }

  lemma SortedCons(x: Bytes, s: seq<Bytes>)
    requires Sorted(s) && forall y <- s :: !Before(y, x)
    ensures Sorted([x] + s)
  {
  }

  lemma {:induction false} InsertSorts(x: Bytes, s: seq<Bytes>)
    requires Sorted(s)
    ensures Sorted(Insert(x, s)) && multiset(Insert(x, s)) == multiset(s) + multiset{x}
  {
    hide Before;
    if s == [] || !Before(s[0], x) {
      forall y <- s ensures !Before(y, x) {
        var j :| 0 <= j < |s| && s[j] == y;
        HeadIsLeast(s, x, j);
      }
      SortedCons(x, s);
    } else {
      var rest := Insert(x, s[1..]);
      InsertSorts(x, s[1..]);
      assert s == [s[0]] + s[1..];
      BeforeIsStrict(s[0], x);
      forall y <- rest ensures !Before(y, s[0]) {
        assert y in multiset(rest);
        assert y == x || y in s[1..];
      }
      SortedCons(s[0], rest);
    }
  }

  lemma {:induction false} SortSorts(s: seq<Bytes>)
    ensures Sorted(Sort(s)) && multiset(Sort(s)) == multiset(s)
  {
    if s != [] {
      SortSorts(s[1..]);
      InsertSorts(s[0], Sort(s[1..]));
      assert s == [s[0]] + s[1..];
    }
  }

  // Sorting forgets everything but which strings there were.
  lemma {:induction false} SortedIsUnique(a: seq<Bytes>, b: seq<Bytes>)
    requires Sorted(a) && Sorted(b) && multiset(a) == multiset(b)
    ensures a == b
  {
    assert |multiset(a)| == |a| && |multiset(b)| == |b|;
    if a != [] {
      FirstIsLeast(a, b);
      FirstIsLeast(b, a);
      BeforeIsTotal(a[0], b[0]);
      assert a == [a[0]] + a[1..] && b == [b[0]] + b[1..];
      assert multiset(a[1..]) == multiset(a) - multiset{a[0]};
      assert multiset(b[1..]) == multiset(b) - multiset{b[0]};
      SortedIsUnique(a[1..], b[1..]);
    }
  }

  lemma FirstIsLeast(a: seq<Bytes>, b: seq<Bytes>)
    requires Sorted(a) && multiset(a) == multiset(b) && a != [] && b != []
    ensures !Before(b[0], a[0])
  {
    assert b[0] in multiset(b);
    assert b[0] in a;
    var k :| 0 <= k < |a| && a[k] == b[0];
    if k == 0 && Before(b[0], a[0]) {
      BeforeIsStrict(b[0], a[0]);
    }
  }

  // ---------------------------------------------------------------- cutting and joining

  // The position of the first b, or the length.
  function IndexOf(s: Bytes, b: byte): (n: nat)
    ensures n <= |s| && b !in s[..n] && (n < |s| ==> s[n] == b)
  {
    if s == [] || s[0] == b then 0 else IndexOf(s[1..], b) + 1
  }

  datatype Halves = Halves(before: Bytes, after: Bytes, found: bool)

  // strings.Cut
  function Cut(s: Bytes, sep: byte): Halves {
    var n := IndexOf(s, sep);
    if n == |s| then Halves(s, [], false) else Halves(s[..n], s[n + 1..], true)
  }

  // strings.Split, for a separator of one byte
  function Split(s: Bytes, sep: byte): seq<Bytes> {
    var n := IndexOf(s, sep);
    if n == |s| then [s] else [s[..n]] + Split(s[n + 1..], sep)
  }

  // strings.Join, for a separator of one byte
  function Join(parts: seq<Bytes>, sep: byte): Bytes {
    if parts == [] then []
    else if |parts| == 1 then parts[0]
    else parts[0] + [sep] + Join(parts[1..], sep)
  }

  lemma {:induction false} IndexAfter(a: Bytes, sep: byte, b: Bytes)
    requires sep !in a
    ensures IndexOf(a + [sep] + b, sep) == |a|
    ensures IndexOf(a, sep) == |a|
  {
    if a != [] {
      IndexAfter(a[1..], sep, b);
      assert (a + [sep] + b)[1..] == a[1..] + [sep] + b;
    }
  }

  lemma CutAfter(a: Bytes, sep: byte, b: Bytes)
    requires sep !in a
    ensures Cut(a + [sep] + b, sep) == Halves(a, b, true)
    ensures Cut(a, sep) == Halves(a, [], false)
  {
    IndexAfter(a, sep, b);
    assert (a + [sep] + b)[..|a|] == a && (a + [sep] + b)[|a| + 1..] == b;
  }

  lemma {:induction false} SplitJoin(parts: seq<Bytes>, sep: byte)
    requires parts != [] && forall p <- parts :: sep !in p
    ensures Split(Join(parts, sep), sep) == parts
  {
    if |parts| == 1 {
      IndexAfter(parts[0], sep, []);
    } else {
      var rest := Join(parts[1..], sep);
      SplitJoin(parts[1..], sep);
      IndexAfter(parts[0], sep, rest);
      CutAfter(parts[0], sep, rest);
      var s := parts[0] + [sep] + rest;
      assert s[..|parts[0]|] == parts[0] && s[|parts[0]| + 1..] == rest;
    }
  }
}
