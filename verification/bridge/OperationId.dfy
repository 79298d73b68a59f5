// encodeCrockford128 of mcp/main.go: 128 bits as 26 symbols of five bits, most significant first.

module OperationId {
  import opened ByteSeqs

  const ALPHABET := "0123456789ABCDEFGHJKMNPQRSTVWXYZ"
  const LENGTH: nat := 26

  // What signFrame takes for an operation id behind "op_": [0-7][0-9A-HJKMNP-TV-Z]{25}.
  predicate IsSymbol(c: char) {
    '0' <= c <= '9' || 'A' <= c <= 'H' || c == 'J' || c == 'K' || c == 'M' || c == 'N'
    || 'P' <= c <= 'T' || 'V' <= c <= 'Z'
  }

  predicate MatchesPattern(s: string) {
    |s| == LENGTH && '0' <= s[0] <= '7' && forall c <- s[1..] :: IsSymbol(c)
  }

  // ---------------------------------------------------------------- numbers

  function Power(base: nat, n: nat): nat {
    if n == 0 then 1 else base * Power(base, n - 1)
  }

  // big.Int.SetBytes
  function Number(bytes: Bytes): nat {
    if bytes == [] then 0 else Number(bytes[..|bytes| - 1]) * 256 + bytes[|bytes| - 1]
  }

  lemma {:induction false} NumberBound(bytes: Bytes)
    ensures Number(bytes) < Power(256, |bytes|)
  {
    if bytes != [] {
      NumberBound(bytes[..|bytes| - 1]);
    }
  }

  lemma SameBytes(x: nat, v: byte, y: nat, w: byte)
    requires x * 256 + v == y * 256 + w
    ensures x == y && v == w
  {
  }

  lemma {:induction false} NumberIsInjective(a: Bytes, b: Bytes)
    requires |a| == |b| && Number(a) == Number(b)
    ensures a == b
  {
    if a != [] {
      var n := |a| - 1;
      assert Number(a) == Number(a[..n]) * 256 + a[n] && Number(b) == Number(b[..n]) * 256 + b[n];
      SameBytes(Number(a[..n]), a[n], Number(b[..n]), b[n]);
      hide Number;
      NumberIsInjective(a[..n], b[..n]);
      assert a == a[..n] + [a[n]] && b == b[..n] + [b[n]];
    }
  }

  // ---------------------------------------------------------------- symbols

  // The value of a symbol: its place in the alphabet.
  function SymbolValue(c: char): nat
    requires IsSymbol(c)
  {
    if c <= '9' then c as int - '0' as int
    else if c <= 'H' then c as int - 'A' as int + 10
    else if c <= 'K' then c as int - 'J' as int + 18
    else if c <= 'N' then c as int - 'M' as int + 20
    else if c <= 'T' then c as int - 'P' as int + 22
    else c as int - 'V' as int + 27
  }

  function Symbol(k: nat): char
    requires k < 32
  {
    ALPHABET[k]
  }

  lemma SymbolAt(k: nat)
    requires k < 32
    ensures IsSymbol(Symbol(k)) && SymbolValue(Symbol(k)) == k
    ensures k < 8 ==> '0' <= Symbol(k) <= '7'
  {
    if k < 16 {
      LowSymbolAt(k);
    } else {
      HighSymbolAt(k);
    }
  }

  lemma LowSymbolAt(k: nat)
    requires k < 16
    ensures IsSymbol(Symbol(k)) && SymbolValue(Symbol(k)) == k
    ensures k < 8 ==> '0' <= Symbol(k) <= '7'
  {
  }

  lemma HighSymbolAt(k: nat)
    requires 16 <= k < 32
    ensures IsSymbol(Symbol(k)) && SymbolValue(Symbol(k)) == k
  {
  }

  ghost predicate AllSymbols(s: string) {
    forall c <- s :: IsSymbol(c)
  }

  // The number a text of symbols spells.
  function Decode(s: string): nat
    requires AllSymbols(s)
  {
    if s == "" then 0 else Decode(s[..|s| - 1]) * 32 + SymbolValue(s[|s| - 1])
  }

  lemma Distribute(v: nat, p: nat, d: nat)
    ensures (v * p + d) * 32 == v * (32 * p) + d * 32
  {
  }

  // A further symbol in front counts for its place.
  lemma {:induction false} DecodeFront(c: char, s: string)
    requires IsSymbol(c) && AllSymbols(s)
    ensures AllSymbols([c] + s) && Decode([c] + s) == SymbolValue(c) * Power(32, |s|) + Decode(s)
  {
    if s == "" {
      assert [c] + s == [c] && [c][..0] == "";
    } else {
      var n := |s| - 1;
      DecodeFront(c, s[..n]);
      var t := [c] + s;
      assert t[..|t| - 1] == [c] + s[..n] && t[|t| - 1] == s[n];
      hide SymbolValue, IsSymbol;
      Distribute(SymbolValue(c), Power(32, n), Decode(s[..n]));
    }
  }

  lemma Shift(n: nat, rest: nat, p: nat)
    ensures n * p + rest == (n / 32) * (32 * p) + (n % 32 * p + rest)
  {
  }

  lemma FiveBytes(n: nat)
    requires n >= 5
    ensures Power(256, n) == 0x100_0000_0000 * Power(256, n - 5)
  {
    assert Power(256, n - 4) == 256 * Power(256, n - 5);
    assert Power(256, n - 3) == 256 * Power(256, n - 4);
    assert Power(256, n - 2) == 256 * Power(256, n - 3);
    assert Power(256, n - 1) == 256 * Power(256, n - 2);
  }

  lemma EightSymbols(n: nat)
    requires n >= 8
    ensures Power(32, n) == 0x100_0000_0000 * Power(32, n - 8)
  {
    assert Power(32, n - 7) == 32 * Power(32, n - 8);
    assert Power(32, n - 6) == 32 * Power(32, n - 7);
    assert Power(32, n - 5) == 32 * Power(32, n - 6);
    assert Power(32, n - 4) == 32 * Power(32, n - 5);
    assert Power(32, n - 3) == 32 * Power(32, n - 4);
    assert Power(32, n - 2) == 32 * Power(32, n - 3);
    assert Power(32, n - 1) == 32 * Power(32, n - 2);
  }

  // Sixteen bytes make less than eight times the weight of the first of 26 symbols.
  lemma WeightOfFirst(places: nat)
    requires places == LENGTH - 1
    ensures Power(256, 16) == 8 * Power(32, places)
  {
    FiveBytes(16);
    FiveBytes(11);
    FiveBytes(6);
    EightSymbols(25);
    EightSymbols(17);
    EightSymbols(9);
    assert Power(256, 1) == 256 * Power(256, 0) && Power(32, 1) == 32 * Power(32, 0);
  }

  lemma FitsUnder(n: nat, p: nat, rest: nat, bound: nat)
    requires n * p + rest < bound * p
    ensures n < bound
  {
  }

  lemma PowerStep(n: nat)
    ensures Power(32, n + 1) == 32 * Power(32, n)
  {
  }

  // One more symbol moves its five bits from the number into the text; the last leaves nothing.
  lemma NextSymbol(n: nat, tail: string, whole: nat)
    requires AllSymbols(tail) && |tail| < LENGTH && whole < Power(256, 16)
    requires n * Power(32, |tail|) + Decode(tail) == whole
    ensures var next := [Symbol(n % 32)] + tail;
            && AllSymbols(next) && n / 32 * Power(32, |next|) + Decode(next) == whole
            && (|next| == LENGTH ==> n / 32 == 0 && '0' <= next[0] <= '7')
  {
    hide *;
    assert |[Symbol(n % 32)] + tail| == |tail| + 1;
    SymbolAt(n % 32);
    DecodeFront(Symbol(n % 32), tail);
    Shift(n, Decode(tail), Power(32, |tail|));
    PowerStep(|tail|);
    if |tail| == LENGTH - 1 {
      WeightOfFirst(|tail|);
      FitsUnder(n, Power(32, |tail|), Decode(tail), 8);
    }
  }

  lemma NothingEncoded(n: nat)
    ensures AllSymbols("") && n * Power(32, 0) + Decode("") == n
  {
  }

  // When every place is filled nothing of the number is left.
  lemma AllEncoded(s: string, n: nat, whole: nat)
    requires AllSymbols(s) && |s| == LENGTH && n == 0 && '0' <= s[0] <= '7'
    requires n * Power(32, |s|) + Decode(s) == whole
    ensures MatchesPattern(s) && Decode(s) == whole
  {
  }

  method EncodeCrockford128(value: Bytes) returns (s: string)
    requires |value| == 16
    ensures MatchesPattern(s) && AllSymbols(s) && Decode(s) == Number(value)
  {
    var n: nat := Number(value);
    var encoded := new char[LENGTH];
    var i: nat := LENGTH;
    NumberBound(value);
    hide *;
    ghost var tail := "";
    NothingEncoded(n);
    while i > 0
      invariant i <= LENGTH && encoded[i..] == tail && |tail| == LENGTH - i
      invariant AllSymbols(tail) && n * Power(32, |tail|) + Decode(tail) == Number(value)
      invariant i == 0 ==> n == 0 && '0' <= tail[0] <= '7'
    {
      NextSymbol(n, tail, Number(value));
      tail := [Symbol(n % 32)] + tail;
      i := i - 1;
      encoded[i] := Symbol(n % 32);
      n := n / 32;
    }
    AllEncoded(tail, n, Number(value));
    assert encoded[..] == tail;
    return encoded[..];
  }

  lemma SymbolBound(c: char)
    requires IsSymbol(c)
    ensures SymbolValue(c) < 32
  {
  }

  lemma SameParts(x: nat, v: nat, y: nat, w: nat)
    requires x * 32 + v == y * 32 + w && v < 32 && w < 32
    ensures x == y && v == w
  {
  }

  // Different values get different ids, each in the form the signer demands.
  lemma {:induction false} DecodeIsInjective(a: string, b: string)
    requires AllSymbols(a) && AllSymbols(b) && |a| == |b| && Decode(a) == Decode(b)
    ensures a == b
  {
    if a != "" {
      var n := |a| - 1;
      SymbolBound(a[n]);
      SymbolBound(b[n]);
      assert Decode(a) == Decode(a[..n]) * 32 + SymbolValue(a[n]);
      assert Decode(b) == Decode(b[..n]) * 32 + SymbolValue(b[n]);
      SameParts(Decode(a[..n]), SymbolValue(a[n]), Decode(b[..n]), SymbolValue(b[n]));
      hide SymbolValue, IsSymbol, Decode;
      SameSymbol(a[n], b[n]);
      DecodeIsInjective(a[..n], b[..n]);
      assert a == a[..n] + [a[n]] && b == b[..n] + [b[n]];
    }
  }

  lemma SameSymbol(c: char, d: char)
    requires IsSymbol(c) && IsSymbol(d) && SymbolValue(c) == SymbolValue(d)
    ensures c == d
  {
  }

  // An id spells its value and no other: ids are equal exactly when the values are.
  lemma IdsAreInjective(v: Bytes, w: Bytes, s: string, t: string)
    requires |v| == |w| == 16 && AllSymbols(s) && AllSymbols(t) && |s| == |t| == LENGTH
    requires Decode(s) == Number(v) && Decode(t) == Number(w)
    ensures s == t <==> v == w
  {
    if s == t {
      NumberIsInjective(v, w);
    } else if v == w {
      DecodeIsInjective(s, t);
    }
  }
}
