// Text encodings: single-byte Cyrillic and UTF-16 to UTF-8, detection, and what it leaves alone.

module TextEnc {
  import opened Shared
  import opened Utf8
  import opened EncTables

  // ---- writing characters into a buffer

  method PutByte(out: array<Byte>, o: nat, b: Byte)
    requires o < out.Length
    modifies out
    ensures out[..o + 1] == old(out[..o]) + [b]
  {
    ghost var before := out[..o];
    out[o] := b;
    assert out[..o] == before;
  }

  // Writes c at place o; n bytes.
  method PutAt(out: array<Byte>, o: nat, c: Code) returns (n: nat)
    requires o + |Put(c)| <= out.Length
    modifies out
    ensures n == |Put(c)| && out[..o + n] == old(out[..o]) + Put(c)
  {
    if c < 0x80 {
      PutByte(out, o, c);
      return 1;
    }
    if c < 0x800 {
      PutByte(out, o, 0xC0 + c / 64);
      PutByte(out, o + 1, 0x80 + c % 64);
      return 2;
    }
    if c < 0x10000 {
      PutByte(out, o, 0xE0 + c / 4096);
      PutByte(out, o + 1, 0x80 + c / 64 % 64);
      PutByte(out, o + 2, 0x80 + c % 64);
      return 3;
    }
    PutByte(out, o, 0xF0 + c / 262144);
    PutByte(out, o + 1, 0x80 + c / 4096 % 64);
    PutByte(out, o + 2, 0x80 + c / 64 % 64);
    PutByte(out, o + 3, 0x80 + c % 64);
    return 4;
  }

  method Terminate(out: array<Byte>, o: nat)
    requires o < out.Length
    modifies out
    ensures out[..o] == old(out[..o]) && out[o] == 0
  {
    ghost var before := out[..o];
    out[o] := 0;
    assert out[..o] == before;
  }

  // ---- single-byte encodings

  lemma Tables()
    ensures IsTable(CP1251) && IsTable(CP866) && IsTable(KOI8R)
  {
    IsCp1251();
    IsCp866();
    IsKoi8r();
  }

  // The character of one byte; an undefined one becomes the replacement character.
  function CharOf(b: Byte, t: Table): (c: Code)
    requires IsTable(t)
    ensures Scalar(c) && c <= 0xFFFF && (b >= 0x80 ==> c >= 0x80)
  {
    if b < 0x80 then b
    else
      var u := t[(b - 0x80) / 16][(b - 0x80) % 16];
      assert GoodRow(t[(b - 0x80) / 16]);
      if u != 0 then u else 0xFFFD
  }

  function CharsOf(p: seq<Byte>, t: Table): (cs: seq<Code>)
    requires IsTable(t)
    ensures |cs| == |p| && AllScalar(cs) && forall i :: 0 <= i < |p| ==> cs[i] == CharOf(p[i], t)
  {
    seq(|p|, i requires 0 <= i < |p| => CharOf(p[i], t))
  }

  // Three bytes a character suffice, and the result is well-formed UTF-8 for the characters of the bytes.
  method FromSingleByte(p: seq<Byte>, t: Table) returns (out: array<Byte>, o: nat)
    requires IsTable(t)
    ensures fresh(out) && out.Length == 3 * |p| + 1 && o <= 3 * |p| && out[o] == 0
    ensures out[..o] == Encode(CharsOf(p, t)) && WellFormed(out[..o])
  {
    hide GoodRow;
    out := new Byte[3 * |p| + 1];
    o := 0;
    ghost var cs := CharsOf(p, t);
    for i := 0 to |p|
      invariant fresh(out) && out.Length == 3 * |p| + 1 && o <= 3 * i
      invariant out[..o] == Encode(cs[..i])
    {
      EncodedMore(cs, i);
      var n := PutAt(out, o, CharOf(p[i], t));
      o := o + n;
    }
    assert cs[..|p|] == cs;
    Terminate(out, o);
  }

  lemma EncodedMore(cs: seq<Code>, i: nat)
    requires i < |cs|
    ensures Encode(cs[..i + 1]) == Encode(cs[..i]) + Put(cs[i])
  {
    assert cs[..i + 1] == cs[..i] + [cs[i]];
    EncodeMore(cs[..i], cs[i]);
  }

  // ---- UTF-16

  function Unit(p: seq<Byte>, i: nat, little: bool): (u: nat)
    requires i + 1 < |p|
    ensures u <= 0xFFFF
  {
    var a: int := p[i];
    var b: int := p[i + 1];
    if little then a + b * 256 else a * 256 + b
  }

  predicate High(u: int) { 0xD800 <= u <= 0xDBFF }

  predicate LowHalf(u: int) { 0xDC00 <= u <= 0xDFFF }

  function Joined(hi: int, lo: int): (c: Code)
    requires High(hi) && LowHalf(lo)
    ensures Scalar(c) && c >= 0x10000
  {
    0x10000 + (hi - 0xD800) * 1024 + (lo - 0xDC00)
  }

  // The first character, and the bytes it takes; a surrogate without its other half stands for itself.
  function First16(p: seq<Byte>, little: bool): (r: (Code, nat))
    requires |p| >= 2
    ensures r.1 == 2 || (r.1 == 4 && |p| >= 4)
    ensures r.1 == 4 ==> r.0 >= 0x10000
    ensures r.1 == 2 ==> r.0 <= 0xFFFF
  {
    var u := Unit(p, 0, little);
    if High(u) && |p| >= 4 && LowHalf(Unit(p, 2, little)) then (Joined(u, Unit(p, 2, little)), 4) else (u, 2)
  }

  // The program's reading; an odd last byte is dropped.
  function Read16(p: seq<Byte>, little: bool): (cs: seq<Code>)
  {
    if |p| < 2 then [] else var (c, k) := First16(p, little); [c] + Read16(p[k..], little)
  }

  // RFC 2781, section 2.1.
  function Bytes16(u: nat, little: bool): (r: seq<Byte>)
    requires u <= 0xFFFF
    ensures |r| == 2
  {
    if little then [u % 256, u / 256] else [u / 256, u % 256]
  }

  function Put16(c: Code, little: bool): (r: seq<Byte>)
    requires Scalar(c)
    ensures |r| == if c < 0x10000 then 2 else 4
  {
    if c < 0x10000 then Bytes16(c, little)
    else Bytes16(0xD800 + (c - 0x10000) / 1024, little) + Bytes16(0xDC00 + (c - 0x10000) % 1024, little)
  }

  function Write16(cs: seq<Code>, little: bool): (r: seq<Byte>)
    requires AllScalar(cs)
  {
    if cs == [] then [] else Put16(cs[0], little) + Write16(cs[1..], little)
  }

  lemma BytesUnit(u: nat, p: seq<Byte>, i: nat, little: bool)
    requires u <= 0xFFFF && i + 1 < |p| && p[i..i + 2] == Bytes16(u, little)
    ensures Unit(p, i, little) == u
  {
    var w := p[i..i + 2];
    assert p[i] == w[0] && p[i + 1] == w[1];
  }

  lemma FirstPut16(c: Code, p: seq<Byte>, little: bool)
    requires Scalar(c) && |Put16(c, little)| <= |p| && p[..|Put16(c, little)|] == Put16(c, little)
    ensures First16(p, little) == (c, |Put16(c, little)|)
  {
    var w := Put16(c, little);
    assert p[0..2] == w[0..2];
    if c < 0x10000 {
      BytesUnit(c, p, 0, little);
    } else {
      assert p[2..4] == w[2..4];
      var hi, lo := 0xD800 + (c - 0x10000) / 1024, 0xDC00 + (c - 0x10000) % 1024;
      BytesUnit(hi, p, 0, little);
      BytesUnit(lo, p, 2, little);
      assert Joined(hi, lo) == c;
    }
  }

  lemma ReadPut16(c: Code, rest: seq<Byte>, little: bool)
    requires Scalar(c)
    ensures Read16(Put16(c, little) + rest, little) == [c] + Read16(rest, little)
  {
    var p := Put16(c, little) + rest;
    var k := |Put16(c, little)|;
    assert p[..k] == Put16(c, little) && p[k..] == rest;
    FirstPut16(c, p, little);
  }

  lemma {:induction false} ReadWrite16(cs: seq<Code>, little: bool)
    requires AllScalar(cs)
    ensures Read16(Write16(cs, little), little) == cs
  {
    if cs != [] {
      ReadPut16(cs[0], Write16(cs[1..], little), little);
      ReadWrite16(cs[1..], little);
      assert cs == [cs[0]] + cs[1..];
    }
  }

  function Even(p: seq<Byte>): seq<Byte> {
    p[..|p| / 2 * 2]
  }

  lemma EvenDrop(p: seq<Byte>, k: nat)
    requires k in {2, 4} && k <= |p|
    ensures k <= |Even(p)| && Even(p)[k..] == Even(p[k..]) && Even(p) == p[..k] + Even(p[k..])
  {
    var n := |p| / 2 * 2;
    assert |p[k..]| / 2 * 2 == n - k;
    assert p[..n][k..] == p[k..][..n - k];
    assert p[..n] == p[..k] + p[k..n];
  }

  lemma HeadTail(c: Code, rest: seq<Code>)
    requires AllScalar([c] + rest)
    ensures Scalar(c) && AllScalar(rest)
  {
    var all := [c] + rest;
    assert all[0] == c;
    forall i | 0 <= i < |rest| ensures Scalar(rest[i]) { assert all[i + 1] == rest[i]; }
  }

  lemma WriteCons(c: Code, rest: seq<Code>, little: bool)
    requires Scalar(c) && AllScalar(rest)
    ensures AllScalar([c] + rest) && Write16([c] + rest, little) == Put16(c, little) + Write16(rest, little)
  {
    assert ([c] + rest)[1..] == rest;
  }

  lemma UnitBytes(p: seq<Byte>, i: nat, little: bool)
    requires i + 1 < |p|
    ensures Bytes16(Unit(p, i, little), little) == p[i..i + 2]
  {
  }

  lemma PairBytes(p: seq<Byte>, little: bool)
    requires |p| >= 4 && High(Unit(p, 0, little)) && LowHalf(Unit(p, 2, little))
    ensures Put16(Joined(Unit(p, 0, little), Unit(p, 2, little)), little) == p[..4]
  {
    UnitBytes(p, 0, little);
    UnitBytes(p, 2, little);
    assert p[..4] == p[0..2] + p[2..4];
  }

  lemma PutFirst16(p: seq<Byte>, little: bool)
    requires |p| >= 2
    ensures var (c, k) := First16(p, little); Scalar(c) ==> Put16(c, little) == p[..k]
  {
    UnitBytes(p, 0, little);
    if First16(p, little).1 == 4 { PairBytes(p, little); }
  }

  lemma {:induction false} WriteRead16(p: seq<Byte>, little: bool)
    requires AllScalar(Read16(p, little))
    ensures Write16(Read16(p, little), little) == Even(p)
  {
    if |p| >= 2 {
      var (c, k) := First16(p, little);
      var rest := Read16(p[k..], little);
      PutFirst16(p, little);
      assert Read16(p, little) == [c] + rest;
      assert Scalar(c) && AllScalar(rest) by { HeadTail(c, rest); }
      WriteRead16(p[k..], little);
      EvenDrop(p, k);
      WriteCons(c, rest, little);
    }
  }

  // Bytes that are, but for an odd last one, the UTF-16 form of scalar values.
  ghost predicate WellFormed16(p: seq<Byte>, little: bool) {
    exists cs: seq<Code> :: AllScalar(cs) && Even(p) == Write16(cs, little)
  }

  lemma {:induction false} ReadEven(p: seq<Byte>, little: bool)
    ensures Read16(Even(p), little) == Read16(p, little)
  {
    if |p| >= 2 {
      var q := Even(p);
      assert Unit(q, 0, little) == Unit(p, 0, little);
      assert |p| >= 4 ==> Unit(q, 2, little) == Unit(p, 2, little);
      var k := First16(p, little).1;
      EvenDrop(p, k);
      ReadEven(p[k..], little);
    }
  }

  // Two output bytes for each input byte always suffice.
  lemma {:induction false} Room16(p: seq<Byte>, little: bool)
    ensures |Encode(Read16(p, little))| <= 2 * |p|
  {
    if |p| >= 2 {
      var (c, k) := First16(p, little);
      Room16(p[k..], little);
      assert Read16(p, little)[1..] == Read16(p[k..], little);
    }
  }

  // The transcoded text is well-formed UTF-8 exactly when the input is well-formed UTF-16; it then is the
  // UTF-8 form of the same scalar values.
  lemma TranscodesExactly(p: seq<Byte>, little: bool)
    ensures WellFormed(Encode(Read16(p, little))) <==> WellFormed16(p, little)
    ensures forall cs: seq<Code> :: AllScalar(cs) && Even(p) == Write16(cs, little) ==> Read16(p, little) == cs
  {
    var us := Read16(p, little);
    forall cs: seq<Code> | AllScalar(cs) && Even(p) == Write16(cs, little) ensures us == cs {
      ReadWrite16(cs, little);
      ReadEven(p, little);
    }
    if WellFormed(Encode(us)) {
      var cs: seq<Code> :| AllScalar(cs) && Encode(us) == Encode(cs);
      QeDecodeEncode(us);
      QeDecodeEncode(cs);
      WriteRead16(p, little);
    }
  }

  // Bytes before i read as the characters done.
  ghost predicate ReadSplit(p: seq<Byte>, little: bool, i: nat, done: seq<Code>) {
    i <= |p| && Read16(p, little) == done + Read16(p[i..], little)
  }

  lemma ReadStep(p: seq<Byte>, little: bool, i: nat, done: seq<Code>, c: Code, k: nat)
    requires i + 1 < |p| && ReadSplit(p, little, i, done) && First16(p[i..], little) == (c, k)
    ensures i + k <= |p| && ReadSplit(p, little, i + k, done + [c])
  {
    assert p[i..][k..] == p[i + k..];
    assert done + ([c] + Read16(p[i + k..], little)) == (done + [c]) + Read16(p[i + k..], little);
  }

  lemma ReadDone(p: seq<Byte>, little: bool, i: nat, done: seq<Code>)
    requires ReadSplit(p, little, i, done) && i + 1 >= |p|
    ensures Read16(p, little) == done
  {
    assert Read16(p[i..], little) == [];
  }

  // One turn of the loop reads one character.
  method Char16(p: seq<Byte>, i: nat, little: bool) returns (u: Code, step: nat)
    requires i + 1 < |p|
    ensures First16(p[i..], little) == (u, step)
  {
    ghost var q := p[i..];
    u, step := Unit(p, i, little), 2;
    assert Unit(q, 0, little) == u;
    if u >= 0xD800 && u <= 0xDBFF && i + 3 < |p| {
      var lo := Unit(p, i + 2, little);
      assert Unit(q, 2, little) == lo;
      if lo >= 0xDC00 && lo <= 0xDFFF {
        u := 0x10000 + (u - 0xD800) * 1024 + (lo - 0xDC00);
        step := 4;
      }
    }
  }

  // Two bytes for each byte of any input suffice.
  method FromUtf16(p: seq<Byte>, little: bool) returns (out: array<Byte>, o: nat)
    ensures fresh(out) && out.Length == 2 * |p| + 1 && o <= 2 * |p| && out[o] == 0
    ensures out[..o] == Encode(Read16(p, little))
  {
    hide Read16, Put;
    out := new Byte[2 * |p| + 1];
    o := 0;
    ghost var done: seq<Code> := [];
    var i := 0;
    assert ReadSplit(p, little, 0, []) by { assert p[0..] == p; }
    while i + 1 < |p|
      invariant fresh(out) && out.Length == 2 * |p| + 1 && o <= 2 * i
      invariant ReadSplit(p, little, i, done) && out[..o] == Encode(done)
    {
      var u, step := Char16(p, i, little);
      ReadStep(p, little, i, done, u, step);
      EncodeMore(done, u);
      done := done + [u];
      var n := PutAt(out, o, u);
      o := o + n;
      i := i + step;
    }
    ReadDone(p, little, i, done);
    Terminate(out, o);
  }

  // ---- detection

  datatype Enc = Unknown | Utf8 | Utf16Le | Utf16Be | Cp1251 | Cp866 | Koi8r

  const PROBE := 65536

  function BomLen(p: seq<Byte>): (n: nat)
    ensures n <= |p|
  {
    if |p| >= 3 && p[0] == 0xEF && p[1] == 0xBB && p[2] == 0xBF then 3
    else if |p| >= 2 && ((p[0] == 0xFF && p[1] == 0xFE) || (p[0] == 0xFE && p[1] == 0xFF)) then 2
    else 0
  }

  // How plausible one byte makes Russian text in an encoding.
  function Weight(b: Byte, t: Table): int
    requires IsTable(t)
  {
    if b < 0x80 then 0
    else
      assert GoodRow(t[(b - 0x80) / 16]);
      var u := t[(b - 0x80) / 16][(b - 0x80) % 16];
      if u == 0 then -4
      else if 0x0410 <= u <= 0x044F then 3
      else if u == 0x0401 || u == 0x0451 then 3
      else if 0x2500 <= u <= 0x25FF then -3
      else -1
  }

  function Score(p: seq<Byte>, t: Table): int
    requires IsTable(t)
  {
    if p == [] then 0 else Score(p[..|p| - 1], t) + Weight(p[|p| - 1], t)
  }

  method ScoreOf(p: seq<Byte>, t: Table) returns (s: int)
    requires IsTable(t)
    ensures s == Score(p, t)
  {
    s := 0;
    for i := 0 to |p|
      invariant s == Score(p[..i], t)
    {
      assert p[..i + 1][..i] == p[..i];
      s := s + Weight(p[i], t);
    }
    assert p[..|p|] == p;
  }

  function Probed(p: seq<Byte>): seq<Byte> {
    if |p| < PROBE then p else p[..PROBE]
  }

  // The single-byte encoding of the best score, if that is positive; the first of equals.
  function Best(p: seq<Byte>): (e: Enc)
    ensures e in {Unknown, Cp1251, Cp866, Koi8r}
    ensures e == Unknown <==>
            (Tables(); Score(p, CP1251) <= 0 && Score(p, CP866) <= 0 && Score(p, KOI8R) <= 0)
  {
    Tables();
    var a, b, c := Score(p, CP1251), Score(p, CP866), Score(p, KOI8R);
    if a >= b && a >= c then (if a > 0 then Cp1251 else Unknown)
    else if b >= c then (if b > 0 then Cp866 else Unknown)
    else (if c > 0 then Koi8r else Unknown)
  }

  // What detection decides: a byte-order mark, then valid UTF-8 in the probe, then the best score.
  ghost function Detected(p: seq<Byte>): Enc {
    if BomLen(p) == 3 then Utf8
    else if BomLen(p) == 2 then (if p[0] == 0xFF then Utf16Le else Utf16Be)
    else if WellFormed(Probed(p)) then Utf8
    else Best(Probed(p))
  }

  lemma {:induction false} AsciiWellFormed(p: seq<Byte>)
    requires forall i :: 0 <= i < |p| ==> p[i] < 0x80
    ensures WellFormed(p)
  {
    if p == [] {
      assert AllScalar([]) && Encode([]) == p;
    } else {
      AsciiWellFormed(p[1..]);
      var cs: seq<Code> :| AllScalar(cs) && p[1..] == Encode(cs);
      var all := [p[0]] + cs;
      assert all[1..] == cs;
      assert AllScalar(all) && p == Encode(all);
    }
  }

  method Detect(p: seq<Byte>) returns (e: Enc)
    ensures e == Detected(p)
  {
    if |p| >= 3 && p[0] == 0xEF && p[1] == 0xBB && p[2] == 0xBF { return Utf8; }
    if |p| >= 2 && p[0] == 0xFF && p[1] == 0xFE { return Utf16Le; }
    if |p| >= 2 && p[0] == 0xFE && p[1] == 0xFF { return Utf16Be; }
    var probe := Probed(p);
    var hasHigh := false;
    for i := 0 to |probe|
      invariant !hasHigh && forall j :: 0 <= j < i ==> probe[j] < 0x80
    {
      if probe[i] >= 0x80 {
        hasHigh := true;
        break;
      }
    }
    if !hasHigh {
      AsciiWellFormed(probe);
      return Utf8;
    }
    var ok := IsUtf8(probe);
    if ok { return Utf8; }
    e := BestOf(probe);
  }

  method BestOf(p: seq<Byte>) returns (e: Enc)
    ensures e == Best(p)
  {
    Tables();
    var a := ScoreOf(p, CP1251);
    var b := ScoreOf(p, CP866);
    var c := ScoreOf(p, KOI8R);
    if a >= b && a >= c { return if a > 0 then Cp1251 else Unknown; }
    if b >= c { return if b > 0 then Cp866 else Unknown; }
    return if c > 0 then Koi8r else Unknown;
  }

  // ---- conversion

  // The converted text; asked is the encoding asked for, Unknown for detection.
  ghost function Converted(p: seq<Byte>, asked: Enc): seq<Byte> {
    Tables();
    var e := if asked == Unknown then Detected(p) else asked;
    var body := p[BomLen(p)..];
    match e
    case Cp1251 => Encode(CharsOf(body, CP1251))
    case Cp866 => Encode(CharsOf(body, CP866))
    case Koi8r => Encode(CharsOf(body, KOI8R))
    case Utf16Le => Encode(Read16(body, true))
    case Utf16Be => Encode(Read16(body, false))
    case _ => body
  }

  method ToUtf8(p: seq<Byte>, asked: Enc) returns (text: seq<Byte>, used: Enc)
    ensures text == Converted(p, asked)
    ensures used == if asked == Unknown then Detected(p) else asked
  {
    var bom := BomLen(p);
    used := asked;
    if used == Unknown { used := Detect(p); }
    var body := p[bom..];
    Tables();
    var out, o;
    match used {
      case Cp1251 => out, o := FromSingleByte(body, CP1251);
      case Cp866 => out, o := FromSingleByte(body, CP866);
      case Koi8r => out, o := FromSingleByte(body, KOI8R);
      case Utf16Le => out, o := FromUtf16(body, true);
      case Utf16Be => out, o := FromUtf16(body, false);
      case _ => return body, used;
    }
    text := out[..o];
  }

  // A byte past 0x7F makes the single-byte text longer.
  lemma {:induction false} Longer(p: seq<Byte>, t: Table)
    requires IsTable(t)
    ensures |Encode(CharsOf(p, t))| >= |p|
    ensures (exists i :: 0 <= i < |p| && p[i] >= 0x80) ==> |Encode(CharsOf(p, t))| > |p|
  {
    if p != [] {
      Longer(p[1..], t);
      assert CharsOf(p, t)[1..] == CharsOf(p[1..], t);
      assert CharsOf(p, t)[0] == CharOf(p[0], t);
      if i :| 0 <= i < |p| && p[i] >= 0x80 {
        if i > 0 { assert p[1..][i - 1] >= 0x80; }
      }
    }
  }

  // Text that is already UTF-8 is left alone exactly when the probe ends between characters or no
  // single-byte encoding scores on it; with at most PROBE bytes it always is.
  lemma Utf8LeftAlone(p: seq<Byte>)
    requires WellFormed(p) && BomLen(p) == 0
    ensures Converted(p, Unknown) == p <==> WellFormed(Probed(p)) || Best(Probed(p)) == Unknown
    ensures |p| <= 65536 ==> Converted(p, Unknown) == p
  {
    Tables();
    assert p[0..] == p;
    if |p| == PROBE { assert p[..PROBE] == p; }
    if !WellFormed(Probed(p)) {
      if forall i :: 0 <= i < |Probed(p)| ==> Probed(p)[i] < 0x80 {
        AsciiWellFormed(Probed(p));
        assert false;
      }
      var i :| 0 <= i < |Probed(p)| && Probed(p)[i] >= 0x80;
      assert p[i] >= 0x80;
      Longer(p, CP1251);
      Longer(p, CP866);
      Longer(p, KOI8R);
    }
  }

  // The mark alone is taken off UTF-8 text that carries one, whatever the text.
  lemma MarkTakenOff(p: seq<Byte>)
    ensures Converted([0xEF, 0xBB, 0xBF] + p, Unknown) == p
  {
    assert ([0xEF, 0xBB, 0xBF] + p)[3..] == p;
  }

  // Long Russian text can be cut inside a character, and is then transcoded a second time.
  function Az(n: nat): (cs: seq<Code>)
    ensures |cs| == n && AllScalar(cs)
  {
    if n == 0 then [] else [0x430] + Az(n - 1)
  }

  lemma {:induction false} AzBytes(n: nat)
    ensures |Encode(Az(n))| == 2 * n && Decode(Encode(Az(n)) + [0xD0]) == None
  {
    var tail: seq<Byte> := [0xD0];
    if n == 0 {
      assert Encode(Az(0)) + tail == tail;
      assert Decode(tail) == None;
    } else {
      AzBytes(n - 1);
      assert Az(n)[1..] == Az(n - 1);
      assert Encode(Az(n)) + tail == Put(0x430) + (Encode(Az(n - 1)) + tail);
      DecodePut(0x430, Encode(Az(n - 1)) + tail);
    }
  }

  lemma XAzBytes(n: nat)
    ensures Decode([0x78] + Encode(Az(n)) + [0xD0]) == None
  {
    var tail: seq<Byte> := [0xD0];
    AzBytes(n);
    assert [0x78] + Encode(Az(n)) + tail == Put(0x78) + (Encode(Az(n)) + tail);
    DecodePut(0x78, Encode(Az(n)) + tail);
  }

  lemma {:induction false} ScoreApp(a: seq<Byte>, b: seq<Byte>, t: Table)
    requires IsTable(t)
    ensures Score(a + b, t) == Score(a, t) + Score(b, t)
  {
    if b == [] {
      assert a + b == a;
    } else {
      assert (a + b)[..|a + b| - 1] == a + b[..|b| - 1];
      ScoreApp(a, b[..|b| - 1], t);
    }
  }

  lemma ScoreOne(b: Byte, t: Table)
    requires IsTable(t)
    ensures Score([b], t) == Weight(b, t)
  {
    assert [b][..0] == [] && Score([], t) == 0;
  }

  lemma AzWeights()
    ensures (Tables(); Weight(0xD0, CP1251) == 3 && Weight(0xB0, CP1251) == -1 && Weight(0x78, CP1251) == 0)
  {
  }

  lemma {:induction false} AzScore(n: nat, t: Table)
    requires IsTable(t) && Weight(0xD0, t) == 3 && Weight(0xB0, t) == -1
    ensures Score(Encode(Az(n)), t) == 2 * n
  {
    if n > 0 {
      AzScore(n - 1, t);
      assert Az(n)[1..] == Az(n - 1);
      assert Encode(Az(n)) == [0xD0] + [0xB0] + Encode(Az(n - 1));
      ScoreApp([0xD0] + [0xB0], Encode(Az(n - 1)), t);
      ScoreApp([0xD0], [0xB0], t);
      ScoreOne(0xD0, t);
      ScoreOne(0xB0, t);
    }
  }

  lemma LongScore(t: Table)
    requires IsTable(t) && Weight(0xD0, t) == 3 && Weight(0xB0, t) == -1 && Weight(0x78, t) == 0
    ensures Score([0x78] + Encode(Az(32767)) + [0xD0], t) > 0
  {
    var q := [0x78] + Encode(Az(32767));
    ScoreApp(q, [0xD0], t);
    ScoreApp([0x78], Encode(Az(32767)), t);
    AzScore(32767, t);
    ScoreOne(0x78, t);
    ScoreOne(0xD0, t);
  }

  // So "UTF-8 is copied unchanged" fails past the probe: the letter x and 32768 letters of Russian text.
  lemma LongTextChanged()
    ensures var p := Encode([0x78] + Az(32768));
            WellFormed(p) && BomLen(p) == 0 && |p| == 65537 && Converted(p, Unknown) != p
  {
    hide Encode, Az;
    var cs := [0x78] + Az(32768);
    var p := Encode(cs);
    LongProbe();
    XAzBytes(32767);
    WellFormedDecodes(Probed(p));
    Tables();
    AzWeights();
    LongScore(CP1251);
    XAzScalar(32768);
    Utf8LeftAlone(p);
  }

  lemma XAzScalar(n: nat)
    ensures AllScalar([0x78] + Az(n))
  {
  }

  lemma LongProbe()
    ensures var p := Encode([0x78] + Az(32768));
            p[0] == 0x78 && |p| == PROBE + 1 && p[..PROBE] == [0x78] + Encode(Az(32767)) + [0xD0]
  {
    hide Decode;
    var n := 32767;
    AzSnoc(n);
    EncodeMore(Az(n), 0x430);
    assert ([0x78] + Az(n + 1))[1..] == Az(n + 1);
    AzBytes(n + 1);
    AzBytes(n);
    var e := Encode(Az(n));
    assert Put(0x430) == [0xD0, 0xB0];
    assert Encode([0x78] + Az(n + 1)) == [0x78] + (e + [0xD0, 0xB0]);
    assert [0x78] + (e + [0xD0, 0xB0]) == ([0x78] + e + [0xD0]) + [0xB0];
  }

  lemma {:induction false} AzSnoc(n: nat)
    ensures Az(n + 1) == Az(n) + [0x430]
  {
    if n > 0 { AzSnoc(n - 1); }
  }
}
