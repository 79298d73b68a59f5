// Bytes, and what it means for a text to stand at a position of another.

module ByteSeqs {

  type byte = b: int | 0 <= b < 256
  type Bytes = seq<byte>

  ghost predicate At(raw: Bytes, i: nat, text: Bytes) {
    i + |text| <= |raw| && raw[i..i + |text|] == text
  }

  lemma AtConcat(raw: Bytes, i: nat, a: Bytes, b: Bytes)
    ensures At(raw, i, a + b) <==> At(raw, i, a) && At(raw, i + |a|, b)
  {
    if At(raw, i, a + b) {
      assert raw[i..i + |a|] == (a + b)[..|a|] == a;
      assert raw[i + |a|..i + |a| + |b|] == (a + b)[|a|..] == b;
    }
  }

  lemma AtFits(raw: Bytes, i: nat, text: Bytes)
    requires At(raw, i, text)
    ensures i + |text| <= |raw|
  {
  }
}
