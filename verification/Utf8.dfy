// UTF-8: the encoder, the strict validator, and the lenient decoder of the query engine.

module Utf8 {
  import opened Shared

  type Byte = b: int | 0 <= b < 256

  // What four bytes can carry; the program's code points are 32-bit words that never hold more.
  type Code = c: int | 0 <= c <= 0x1FFFFF

  // The program works with masks and shifts; here they are stated as ranges, products and remainders. On
  // words these say the same.
  lemma Masks(c: bv8)
    ensures (c & 0xE0 == 0xC0 <==> 0xC0 <= c < 0xE0) && (c & 0xE0 == 0xC0 ==> c & 0x1F == c - 0xC0)
    ensures (c & 0xF0 == 0xE0 <==> 0xE0 <= c < 0xF0) && (c & 0xF0 == 0xE0 ==> c & 0x0F == c - 0xE0)
    ensures (c & 0xF8 == 0xF0 <==> 0xF0 <= c < 0xF8) && (c & 0xF8 == 0xF0 ==> c & 0x07 == c - 0xF0)
    ensures (c & 0xC0 == 0x80 <==> 0x80 <= c < 0xC0) && (c & 0xC0 == 0x80 ==> c & 0x3F == c - 0x80)
  {
  }

  lemma Shifts(c: bv32, u: bv32)
    requires c <= 0x1FFFFF && u < 0x40
    ensures (c << 6) | u == c * 64 + u && c >> 6 == c / 64 && c & 0x3F == c % 64
    ensures 0x80 | u == 0x80 + u && (u < 0x20 ==> 0xC0 | u == 0xC0 + u)
    ensures (u < 0x10 ==> 0xE0 | u == 0xE0 + u) && (u < 8 ==> 0xF0 | u == 0xF0 + u)
  {
  }

  // The Unicode scalar values (RFC 3629, section 3).
  predicate Scalar(c: Code) {
    c <= 0x10FFFF && !(0xD800 <= c <= 0xDFFF)
  }

  predicate AllScalar(cs: seq<Code>) {
    forall i :: 0 <= i < |cs| ==> Scalar(cs[i])
  }

  function Put(c: Code): (r: seq<Byte>)
    ensures 1 <= |r| <= 4
    ensures c < 0x10000 ==> |r| <= 3
    ensures c < 0x80 ==> |r| == 1
  {
    if c < 0x80 then [c]
    else if c < 0x800 then [0xC0 + c / 64, 0x80 + c % 64]
    else if c < 0x10000 then [0xE0 + c / 4096, 0x80 + c / 64 % 64, 0x80 + c % 64]
    else [0xF0 + c / 262144, 0x80 + c / 4096 % 64, 0x80 + c / 64 % 64, 0x80 + c % 64]
  }

  function Encode(cs: seq<Code>): (r: seq<Byte>)
  {
    if cs == [] then [] else Put(cs[0]) + Encode(cs[1..])
  }

  // What the bytes of a character look like: a first byte that tells their number, and six bits in each other,
  // the highest first (RFC 3629, section 3).
  lemma PutForm(c: Code)
    ensures var b: seq<int> := Put(c);
            && (|b| == 1 ==> b[0] < 0x80 && c == b[0])
            && (|b| == 2 ==> 0xC0 <= b[0] < 0xE0 && c == (b[0] - 0xC0) * 64 + (b[1] - 0x80))
            && (|b| == 3 ==> 0xE0 <= b[0] < 0xF0 && c == (b[0] - 0xE0) * 4096 + (b[1] - 0x80) * 64 + (b[2] - 0x80))
            && (|b| == 4 ==> 0xF0 <= b[0] < 0xF8)
            && (|b| == 4 ==>
                  c == (b[0] - 0xF0) * 262144 + (b[1] - 0x80) * 4096 + (b[2] - 0x80) * 64 + (b[3] - 0x80))
            && (forall i :: 1 <= i < |b| ==> 0x80 <= b[i] < 0xC0)
            && |b| == if c < 0x80 then 1 else if c < 0x800 then 2 else if c < 0x10000 then 3 else 4
  {
    Sixes(c);
  }

  // ---- reading one character

  predicate Cont(c: Byte) {
    0x80 <= c < 0xC0
  }

  // Length announced by a lead byte; 0 for a byte that cannot lead.
  function LeadLen(c: Byte): (n: nat)
    ensures n <= 4
  {
    if c < 0x80 then 1
    else if 0xC0 <= c < 0xE0 then 2
    else if 0xE0 <= c < 0xF0 then 3
    else if 0xF0 <= c < 0xF8 then 4
    else 0
  }

  function LeadBits(c: Byte): Code {
    if 0xC0 <= c < 0xE0 then c - 0xC0
    else if 0xE0 <= c < 0xF0 then c - 0xE0
    else if 0xF0 <= c < 0xF8 then c - 0xF0
    else c
  }

  // Six more bits.
  function Push(u: int, c: Byte): int {
    u * 64 + (c - 0x80)
  }

  // Continuation bytes k.. up to n folded into u; None when one of them is not a continuation byte.
  function Fold(p: seq<Byte>, k: nat, n: nat, u: int): Option<int>
    requires k <= n <= |p|
    decreases n - k
  {
    if k == n then Some(u)
    else if !Cont(p[k]) then None
    else Fold(p, k + 1, n, Push(u, p[k]))
  }

  lemma {:induction false} FoldBound(p: seq<Byte>, k: nat, n: nat, u: int)
    requires 1 <= k <= n <= |p| && n <= 4 && Fold(p, k, n, u).Some?
    requires 0 <= u && (n - k == 0 ==> u <= 0x1FFFFF) && (n - k == 1 ==> u <= 0x7FFF)
    requires (n - k == 2 ==> u <= 0x1FF) && (n - k == 3 ==> u <= 7)
    ensures 0 <= Fold(p, k, n, u).value <= 0x1FFFFF
    decreases n - k
  {
    if k < n { FoldBound(p, k + 1, n, Push(u, p[k])); }
  }

  // Overlong forms, surrogates and values past the last plane.
  predicate Refused(n: nat, c: int) {
    (n == 2 && c < 0x80) || (n == 3 && c < 0x800) || (n == 4 && c < 0x10000) || c > 0x10FFFF || 0xD800 <= c <= 0xDFFF
  }

  datatype Char = Bad | Char(cp: Code, len: nat)

  // The character at the head of p by the shape of its bytes alone.
  function Shape(p: seq<Byte>): (r: Char)
    requires p != []
    ensures r.Char? ==> 1 <= r.len <= |p|
  {
    var n := LeadLen(p[0]);
    if n == 0 || n > |p| then Bad
    else
      var u := Fold(p, 1, n, LeadBits(p[0]));
      if u.None? then Bad else (FoldBound(p, 1, n, LeadBits(p[0])); Char(u.value, n))
  }

  // The character at the head of p as the validator reads it.
  function Strict(p: seq<Byte>): (r: Char)
    requires p != []
    ensures r.Char? ==> 1 <= r.len <= |p|
  {
    var r := Shape(p);
    if r.Char? && (r.len == 1 || !Refused(r.len, r.cp)) then r else Bad
  }

  // The character at the head of p as the query engine reads it: a byte that starts none stands for itself.
  function Lenient(p: seq<Byte>): (r: Char)
    requires p != []
    ensures r.Char? && 1 <= r.len <= |p|
  {
    var r := Shape(p);
    if r.Char? then r else Char(p[0], 1)
  }

  function Decode(p: seq<Byte>): Option<seq<Code>>
  {
    if p == [] then Some([])
    else
      var h := Strict(p);
      if h.Bad? then None
      else
        var rest := Decode(p[h.len..]);
        if rest.None? then None else Some([h.cp] + rest.value)
  }

  function QeDecode(p: seq<Byte>): (r: seq<Code>)
    ensures |r| <= |p|
  {
    if p == [] then []
    else var h := Lenient(p); [h.cp] + QeDecode(p[h.len..])
  }

  // ---- characters

  lemma Fold3(p: seq<Byte>, u: int, v: int, c: int)
    requires |p| >= 3 && Cont(p[1]) && Cont(p[2]) && v == Push(u, p[1]) && c == Push(v, p[2])
    ensures Fold(p, 1, 3, u) == Some(c)
  {
    assert Fold(p, 1, 3, u) == Fold(p, 2, 3, v) == Fold(p, 3, 3, c);
  }

  lemma Fold4(p: seq<Byte>, u: int, v: int, w: int, c: int)
    requires |p| >= 4 && Cont(p[1]) && Cont(p[2]) && Cont(p[3])
    requires v == Push(u, p[1]) && w == Push(v, p[2]) && c == Push(w, p[3])
    ensures Fold(p, 1, 4, u) == Some(c)
  {
    assert Fold(p, 1, 4, u) == Fold(p, 2, 4, v) == Fold(p, 3, 4, w) == Fold(p, 4, 4, c);
  }

  // Six bits at a time.
  lemma Sixes(c: Code)
    ensures c == c / 64 * 64 + c % 64
    ensures c / 64 == c / 4096 * 64 + c / 64 % 64
    ensures c / 4096 == c / 262144 * 64 + c / 4096 % 64
  {
    assert c / 4096 == c / 64 / 64 && c / 262144 == c / 4096 / 64;
  }

  lemma ShapePut2(c: Code, rest: seq<Byte>)
    requires 0x80 <= c < 0x800
    ensures Shape(Put(c) + rest) == Char(c, 2)
  {
    var p := Put(c) + rest;
    Sixes(c);
    assert Fold(p, 1, 2, c / 64) == Fold(p, 2, 2, c);
  }

  lemma ShapePut3(c: Code, rest: seq<Byte>)
    requires 0x800 <= c < 0x10000
    ensures Shape(Put(c) + rest) == Char(c, 3)
  {
    Sixes(c);
    Fold3(Put(c) + rest, c / 4096, c / 64, c);
  }

  lemma ShapePut4(c: Code, rest: seq<Byte>)
    requires 0x10000 <= c
    ensures Shape(Put(c) + rest) == Char(c, 4)
  {
    Sixes(c);
    Fold4(Put(c) + rest, c / 262144, c / 4096, c / 64, c);
  }

  // What was encoded is what the head of the bytes reads as, whatever follows.
  lemma ShapePut(c: Code, rest: seq<Byte>)
    ensures Shape(Put(c) + rest) == Char(c, |Put(c)|)
    ensures Scalar(c) ==> Strict(Put(c) + rest) == Char(c, |Put(c)|)
  {
    if c < 0x80 {
      assert Fold(Put(c) + rest, 1, 1, c) == Some(c);
    } else if c < 0x800 {
      ShapePut2(c, rest);
    } else if c < 0x10000 {
      ShapePut3(c, rest);
    } else {
      ShapePut4(c, rest);
    }
  }

  // The bytes of a character are what the encoder writes for it as soon as their number is right.
  lemma ShortestForm(p: seq<Byte>)
    requires p != []
    ensures var h := Shape(p); h.Char? && |Put(h.cp)| == h.len ==> p[..h.len] == Put(h.cp)
  {
    var n, u := LeadLen(p[0]), LeadBits(p[0]);
    var h := Shape(p);
    if h.Char? {
      if n == 1 {
        assert p[..1] == [p[0]];
      } else if n == 2 {
        assert h.cp == Push(u, p[1]);
        assert p[..2] == [p[0], p[1]];
      } else if n == 3 {
        Fold3(p, u, Push(u, p[1]), Push(Push(u, p[1]), p[2]));
        Rejoin3(u, p[1], p[2]);
        assert p[..3] == [p[0], p[1], p[2]];
      } else {
        Fold4(p, u, Push(u, p[1]), Push(Push(u, p[1]), p[2]), Push(Push(Push(u, p[1]), p[2]), p[3]));
        Rejoin4(u, p[1], p[2], p[3]);
        assert p[..4] == [p[0], p[1], p[2], p[3]];
      }
    }
  }

  // An accepted character is a scalar value, written the one way the encoder writes it.
  lemma PutShape(p: seq<Byte>)
    requires p != []
    ensures var h := Strict(p); h.Char? ==> Scalar(h.cp) && p[..h.len] == Put(h.cp)
  {
    ShortestForm(p);
    if Strict(p).Char? && LeadLen(p[0]) == 2 { assert Shape(p).cp == Push(LeadBits(p[0]), p[1]); }
    if Strict(p).Char? && LeadLen(p[0]) == 3 {
      var u := LeadBits(p[0]);
      Fold3(p, u, Push(u, p[1]), Push(Push(u, p[1]), p[2]));
    }
  }

  lemma Rejoin3(u: nat, b: Byte, d: Byte)
    requires Cont(b) && Cont(d)
    ensures var c := Push(Push(u, b), d); c / 4096 == u && 0x80 + c / 64 % 64 == b && 0x80 + c % 64 == d
  {
  }

  lemma Rejoin4(u: nat, b: Byte, d: Byte, e: Byte)
    requires Cont(b) && Cont(d) && Cont(e)
    ensures var c := Push(Push(Push(u, b), d), e);
            c / 262144 == u && 0x80 + c / 4096 % 64 == b && 0x80 + c / 64 % 64 == d && 0x80 + c % 64 == e
  {
    var v := Push(u, b);
    var w := Push(v, d);
    var c := Push(w, e);
    assert c / 64 == w && w / 64 == v && v / 64 == u;
    assert c / 4096 == c / 64 / 64 && c / 262144 == c / 4096 / 64;
  }

  // ---- whole strings

  lemma DecodePut(c: Code, rest: seq<Byte>)
    requires Scalar(c)
    ensures Decode(Put(c) + rest) == if Decode(rest).Some? then Some([c] + Decode(rest).value) else None
  {
    var p := Put(c) + rest;
    ShapePut(c, rest);
    assert p[|Put(c)|..] == rest;
  }

  lemma DecodeHead(p: seq<Byte>) returns (c: Code, rest: seq<Byte>)
    requires p != [] && Decode(p).Some?
    ensures Scalar(c) && p == Put(c) + rest && Decode(rest).Some?
    ensures Decode(p).value == [c] + Decode(rest).value
  {
    var h := Strict(p);
    PutShape(p);
    c, rest := h.cp, p[h.len..];
    assert p == p[..h.len] + rest;
  }

  lemma {:induction false} DecodeEncode(cs: seq<Code>)
    requires AllScalar(cs)
    ensures Decode(Encode(cs)) == Some(cs)
  {
    if cs != [] {
      DecodePut(cs[0], Encode(cs[1..]));
      DecodeEncode(cs[1..]);
      assert cs == [cs[0]] + cs[1..];
    }
  }

  lemma {:induction false} EncodeDecode(p: seq<Byte>)
    ensures Decode(p).Some? ==> AllScalar(Decode(p).value) && Encode(Decode(p).value) == p
  {
    if p != [] && Decode(p).Some? {
      var c, rest := DecodeHead(p);
      EncodeDecode(rest);
      var cs := Decode(rest).value;
      assert ([c] + cs)[1..] == cs;
    }
  }

  // A byte string is well formed if it is the encoding of scalar values.
  ghost predicate WellFormed(p: seq<Byte>) {
    exists cs: seq<Code> :: AllScalar(cs) && p == Encode(cs)
  }

  lemma WellFormedDecodes(p: seq<Byte>)
    ensures WellFormed(p) <==> Decode(p).Some?
  {
    EncodeDecode(p);
    if WellFormed(p) {
      var cs: seq<Code> :| AllScalar(cs) && p == Encode(cs);
      DecodeEncode(cs);
    }
  }

  lemma QeDecodePut(c: Code, rest: seq<Byte>)
    ensures QeDecode(Put(c) + rest) == [c] + QeDecode(rest)
  {
    ShapePut(c, rest);
    assert (Put(c) + rest)[|Put(c)|..] == rest;
  }

  lemma {:induction false} QeDecodeEncode(cs: seq<Code>)
    ensures QeDecode(Encode(cs)) == cs
  {
    if cs != [] {
      QeDecodePut(cs[0], Encode(cs[1..]));
      QeDecodeEncode(cs[1..]);
      assert cs == [cs[0]] + cs[1..];
    }
  }

  // Every character of the string has the shape of one, and is as short as the encoder would write it.
  predicate Canonical(p: seq<Byte>) {
    p == [] ||
    (Shape(p).Char? && |Put(Shape(p).cp)| == Shape(p).len && Canonical(p[Shape(p).len..]))
  }

  // A string whose head the encoder wrote: its head has the shape of that character.
  lemma PutHead(p: seq<Byte>, c: Char, back: seq<Byte>)
    requires p != [] && c == Lenient(p) && p == Put(c.cp) + back
    ensures Shape(p) == c && |Put(c.cp)| == c.len && back == p[c.len..]
  {
    ShapePut(c.cp, back);
  }

  lemma EncodeQeDecode(p: seq<Byte>)
    requires p != []
    ensures var c := Lenient(p); Encode(QeDecode(p)) == Put(c.cp) + Encode(QeDecode(p[c.len..]))
  {
    var c := Lenient(p);
    var rest := QeDecode(p[c.len..]);
    assert QeDecode(p) == [c.cp] + rest;
    assert ([c.cp] + rest)[1..] == rest;
  }

  // Encoding undoes the query engine's decoder exactly on the canonical strings.
  lemma {:induction false} QeDecodeFaithful(p: seq<Byte>)
    ensures Encode(QeDecode(p)) == p <==> Canonical(p)
  {
    if p != [] {
      var c := Lenient(p);
      var rest := p[c.len..];
      var back := Encode(QeDecode(rest));
      QeDecodeFaithful(rest);
      EncodeQeDecode(p);
      if Put(c.cp) + back == p {
        PutHead(p, c, back);
      } else {
        ShortestForm(p);
        assert p == p[..c.len] + rest;
      }
    }
  }

  // The canonical strings are those the encoder can write.
  lemma CanonicalEncoded(p: seq<Byte>)
    ensures Canonical(p) <==> exists cs: seq<Code> :: p == Encode(cs)
  {
    QeDecodeFaithful(p);
    if cs: seq<Code> :| p == Encode(cs) { EncodedCanonical(cs); }
  }

  lemma EncodedCanonical(cs: seq<Code>)
    ensures Canonical(Encode(cs))
  {
    QeDecodeEncode(cs);
    QeDecodeFaithful(Encode(cs));
  }

  // On a well-formed string both readings agree.
  lemma WellFormedReadings(p: seq<Byte>)
    requires WellFormed(p)
    ensures Decode(p) == Some(QeDecode(p))
  {
    var cs: seq<Code> :| AllScalar(cs) && p == Encode(cs);
    DecodeEncode(cs);
    QeDecodeEncode(cs);
  }

  // Elsewhere it can merge different strings: a stray byte reads as the character of that number.
  lemma QeDecodeMerges()
    ensures QeDecode([0x80]) == QeDecode([0xC2, 0x80]) == [0x80]
  {
    var a, b: seq<Byte> := [0x80], [0xC2, 0x80];
    assert b == Put(0x80) + [] && Put(0x80)[0] == 0xC2;
    ShapePut(0x80, []);
    assert LeadLen(0x80) == 0;
    assert a[1..] == [] && b[2..] == [];
    assert QeDecode([]) == [];
  }

  lemma {:induction false} EncodeApp(a: seq<Code>, b: seq<Code>)
    ensures Encode(a + b) == Encode(a) + Encode(b)
  {
    if a == [] {
      assert a + b == b;
    } else {
      assert (a + b)[1..] == a[1..] + b;
      EncodeApp(a[1..], b);
    }
  }

  lemma EncodeMore(a: seq<Code>, c: Code)
    ensures Encode(a + [c]) == Encode(a) + Put(c)
  {
    EncodeApp(a, [c]);
    assert [c][1..] == [] && Put(c) + [] == Put(c);
  }

  // ---- the loops

  lemma StrictAt(p: seq<Byte>, i: nat)
    requires i < |p|
    ensures p[i..][0] == p[i]
    ensures WellFormed(p[i..]) <==> Strict(p[i..]).Char? && WellFormed(p[i + Strict(p[i..]).len..])
  {
    var h := Strict(p[i..]);
    WellFormedDecodes(p[i..]);
    if h.Char? {
      assert p[i..][h.len..] == p[i + h.len..];
      WellFormedDecodes(p[i + h.len..]);
    }
  }

  // The validator: true exactly on well-formed strings.
  method IsUtf8(p: seq<Byte>) returns (ok: bool)
    ensures ok <==> WellFormed(p)
  {
    var i := 0;
    assert p[0..] == p;
    while i < |p|
      invariant 0 <= i <= |p| && (WellFormed(p) <==> WellFormed(p[i..]))
    {
      StrictAt(p, i);
      var len;
      ok, len := StrictChar(p, i);
      if !ok { return; }
      i := i + len;
    }
    assert p[i..] == [] == Encode([]);
    return true;
  }

  // One character of the validator's loop.
  method StrictChar(p: seq<Byte>, i: nat) returns (ok: bool, len: nat)
    requires i < |p|
    ensures ok <==> Strict(p[i..]).Char?
    ensures ok ==> len == Strict(p[i..]).len
  {
    var c := p[i];
    ghost var q := p[i..];
    len := 1;
    if c < 0x80 { return true, 1; }
    var extra := LeadLen(c) - 1;
    var cp := LeadBits(c);
    if extra < 0 { return false, 1; }
    if i + extra >= |p| { return false, 1; }
    var k := 1;
    while k <= extra
      invariant 1 <= k <= extra + 1 && Fold(q, 1, extra + 1, LeadBits(c)) == Fold(q, k, extra + 1, cp)
    {
      var cc := p[i + k];
      assert q[k] == cc;
      if !Cont(cc) { return false, 1; }
      cp := Push(cp, cc);
      k := k + 1;
    }
    len := extra + 1;
    ok := !((extra == 1 && cp < 0x80) || (extra == 2 && cp < 0x800) || (extra == 3 && cp < 0x10000)
            || cp > 0x10FFFF || (cp >= 0xD800 && cp <= 0xDFFF));
  }

  // The query engine's decoder; s is the string up to its terminator. The buffer of |s| code points suffices.
  method QeDecodeInto(s: seq<Byte>) returns (cp: array<Code>, n: nat)
    ensures fresh(cp) && n <= cp.Length == |s| && cp[..n] == QeDecode(s)
  {
    hide Lenient;
    cp := new Code[|s|];
    n := 0;
    var i := 0;
    ghost var done: seq<Code> := [];
    assert QeSplit(s, 0, []) by { assert s[0..] == s; }
    while i < |s|
      invariant n <= i <= |s| && fresh(cp) && cp.Length == |s|
      invariant cp[..n] == done && QeSplit(s, i, done)
    {
      var u, len := QeChar(s, i);
      QeStep(s, i, u, len, done);
      cp[n] := u;
      done := done + [u];
      n := n + 1;
      i := i + len;
    }
    assert s[i..] == [];
  }

  // The characters before byte i are done.
  ghost predicate QeSplit(s: seq<Byte>, i: nat, done: seq<Code>) {
    i <= |s| && QeDecode(s) == done + QeDecode(s[i..])
  }

  lemma QeStep(s: seq<Byte>, i: nat, u: Code, len: nat, done: seq<Code>)
    requires i < |s| && Lenient(s[i..]) == Char(u, len) && QeSplit(s, i, done)
    ensures len >= 1 && i + len <= |s| && QeSplit(s, i + len, done + [u])
  {
    assert s[i..][len..] == s[i + len..];
    assert done + ([u] + QeDecode(s[i + len..])) == (done + [u]) + QeDecode(s[i + len..]);
  }

  method QeChar(s: seq<Byte>, i: nat) returns (u: Code, len: nat)
    requires i < |s|
    ensures Lenient(s[i..]) == Char(u, len)
  {
    var c := s[i];
    ghost var q := s[i..];
    var v: int;
    v, len := LeadBits(c), LeadLen(c);
    if len == 0 { v, len := c, 1; }
    if i + len > |s| { v, len := c, 1; }
    ghost var n := len;
    var k := 1;
    while k < len
      invariant 1 <= k <= len == n == LeadLen(c) <= |q| || (k == len == n == 1 && v == c && Shape(q).Bad?)
      invariant len == LeadLen(c) ==> Fold(q, 1, n, LeadBits(c)) == Fold(q, k, n, v)
    {
      var cc := s[i + k];
      assert q[k] == cc;
      if !Cont(cc) {
        v, len := c, 1;
        break;
      }
      v := Push(v, cc);
      k := k + 1;
    }
    if len == LeadLen(c) {
      FoldBound(q, 1, n, LeadBits(c));
    }
    u := v;
  }
}
