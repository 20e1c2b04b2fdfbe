// Edit distance on text: code points, not bytes, are counted.

module FuzzyMatch {
  import opened Utf8
  import opened Levenshtein

  // x and y are strings up to their terminators.
  method TextDistance(x: seq<Byte>, y: seq<Byte>) returns (d: int)
    ensures d == EditDist(QeDecode(x), QeDecode(y))
  {
    var cx, lx := QeDecodeInto(x);
    var cy, ly := QeDecodeInto(y);
    d := Distance(cx[..lx], cy[..ly]);
  }

  // On encoded text the distance is that of the characters, however many bytes each takes.
  lemma DistanceOfText(a: seq<Code>, b: seq<Code>)
    ensures EditDist(QeDecode(Encode(a)), QeDecode(Encode(b))) == EditDist(a, b)
  {
    QeDecodeEncode(a);
    QeDecodeEncode(b);
  }

  // On the strings the decoder loses nothing of, distance zero is equality of the bytes; well-formed strings
  // are such.
  lemma ZeroOnText(x: seq<Byte>, y: seq<Byte>)
    requires Canonical(x) && Canonical(y)
    ensures EditDist(QeDecode(x), QeDecode(y)) == 0 <==> x == y
  {
    ZeroIffEqual(QeDecode(x), QeDecode(y));
    QeDecodeFaithful(x);
    QeDecodeFaithful(y);
  }

  lemma WellFormedCanonical(x: seq<Byte>)
    requires WellFormed(x)
    ensures Canonical(x)
  {
    var cs: seq<Code> :| AllScalar(cs) && x == Encode(cs);
    EncodedCanonical(cs);
  }

  // On other bytes it is not: a stray byte and the character of its number are at distance zero.
  lemma ZeroOffText()
    ensures var x, y: seq<Byte> := [0x80], [0xC2, 0x80]; x != y && EditDist(QeDecode(x), QeDecode(y)) == 0
  {
    QeDecodeMerges();
    ZeroIffEqual(QeDecode([0x80]), QeDecode([0xC2, 0x80]));
  }
}
