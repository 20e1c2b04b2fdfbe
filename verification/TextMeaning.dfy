// What the conversion to UTF-8 yields, said of the bytes of the file alone, and which encodings of Russian text
// detection tells apart.

module TextMeaning {
  import opened Shared
  import opened Utf8
  import opened EncTables
  import opened TextEnc

  // ---- UTF-16

  lemma OneCode(cs: seq<Code>, ds: seq<Code>)
    ensures Encode(cs) == Encode(ds) <==> cs == ds
  {
    QeDecodeEncode(cs);
    QeDecodeEncode(ds);
  }

  lemma MarkBytes(cs: seq<Code>, little: bool)
    requires AllScalar(cs)
    ensures AllScalar([0xFEFF] + cs)
    ensures Write16([0xFEFF] + cs, little) == (if little then [0xFF, 0xFE] else [0xFE, 0xFF]) + Write16(cs, little)
  {
    WriteCons(0xFEFF, cs, little);
  }

  // A file in UTF-16 that begins with its mark, in either byte order, is converted to its text.
  lemma MarkedText(cs: seq<Code>, little: bool)
    requires AllScalar(cs)
    ensures AllScalar([0xFEFF] + cs)
    ensures Converted(Write16([0xFEFF] + cs, little), Unknown) == Encode(cs)
  {
    var w := Write16(cs, little);
    MarkBytes(cs, little);
    var p := (if little then [0xFF, 0xFE] else [0xFE, 0xFF]) + w;
    assert p[2..] == w;
    ReadWrite16(cs, little);
  }

  // One without a mark, its encoding asked for, is converted to its text if and only if its first bytes are no
  // mark of any encoding.
  lemma AskedText(cs: seq<Code>, little: bool)
    requires AllScalar(cs)
    ensures var p := Write16(cs, little);
            Converted(p, if little then Utf16Le else Utf16Be) == Encode(cs) <==> BomLen(p) == 0
  {
    var p := Write16(cs, little);
    var body := p[BomLen(p)..];
    ReadWrite16(cs, little);
    OneCode(Read16(body, little), cs);
    if BomLen(p) == 0 {
      assert body == p;
    } else if Read16(body, little) == cs {
      WriteRead16(body, little);
    }
  }

  // It happens: three bytes of two characters look like the mark of UTF-8, and nothing is left of the text.
  lemma AskedTextLost()
    ensures AllScalar([0xBBEF, 0x00BF])
    ensures var p := Write16([0xBBEF, 0x00BF], true); p == [0xEF, 0xBB, 0xBF, 0] && Converted(p, Utf16Le) == []
  {
    var one: seq<Code> := [0x00BF];
    assert ([0xBBEF] + one)[1..] == one && one[1..] == [];
    assert Write16(one, true) == Put16(0xBF, true) + [] == [0xBF, 0];
    assert [0xBBEF] + one == [0xBBEF, 0x00BF];
    assert Write16([0xBBEF] + one, true) == Put16(0xBBEF, true) + Write16(one, true);
    var p: seq<Byte> := [0xEF, 0xBB, 0xBF, 0];
    assert p[3..] == [0];
    assert Read16([0], true) == [];
  }

  // ---- the bytes of Russian letters

  predicate IsLetter(c: Code) {
    0x0410 <= c <= 0x044F || c == 0x0401 || c == 0x0451
  }

  // The small letters of KOI8-R in the order of their bytes (RFC 1489); the capitals are 0x20 bytes further.
  const KOI_SMALL: seq<seq<int>> := [
    [0x44E, 0x430, 0x431, 0x446, 0x434, 0x435, 0x444, 0x433, 0x445, 0x438, 0x439, 0x43A, 0x43B, 0x43C, 0x43D, 0x43E],
    [0x43F, 0x44F, 0x440, 0x441, 0x442, 0x443, 0x436, 0x432, 0x44C, 0x44B, 0x437, 0x448, 0x44D, 0x449, 0x447, 0x44A]]

  lemma KoiSmall(r: nat, j: nat)
    requires r < 2 && j < 16
    ensures |KOI_SMALL[r]| == 16 && 0x430 <= KOI_SMALL[r][j] <= 0x44F
  {
  }

  function Small(k: nat): (c: int)
    requires k < 32
    ensures 0x430 <= c <= 0x44F
  {
    KoiSmall(k / 16, k % 16);
    KOI_SMALL[k / 16][k % 16]
  }

  // The character of byte j of row r of a table.
  lemma CharAt(t: Table, r: nat, j: nat)
    requires IsTable(t) && r < 8 && j < 16
    ensures CharOf(0x80 + 16 * r + j, t) == if t[r][j] != 0 then t[r][j] else 0xFFFD
  {
    var b := 0x80 + 16 * r + j;
    assert (b - 0x80) / 16 == r && (b - 0x80) % 16 == j;
  }

  lemma Rows1251Letters(r: nat, j: nat)
    requires 4 <= r < 8 && j < 16
    ensures CP1251[r][j] == 0x410 + 16 * (r - 4) + j
  {
  }

  lemma Rows866Letters(r: nat, j: nat)
    requires (r < 3 || r == 6) && j < 16
    ensures CP866[r][j] == if r < 3 then 0x410 + 16 * r + j else 0x440 + j
  {
  }

  lemma RowsKoi8rLetters(r: nat, j: nat)
    requires 4 <= r < 8 && j < 16
    ensures |KOI_SMALL[r % 2]| == 16 && KOI8R[r][j] == KOI_SMALL[r % 2][j] - (if r < 6 then 0 else 0x20)
  {
  }

  lemma Cp1251Letters(b: Byte)
    requires b >= 0xC0
    ensures (Tables(); CharOf(b, CP1251) == 0x410 + (b - 0xC0))
  {
    Tables();
    hide CharOf, IsTable;
    var r, j := (b - 0x80) / 16, (b - 0x80) % 16;
    Rows1251Letters(r, j);
    CharAt(CP1251, r, j);
  }

  lemma Cp866Letters(b: Byte)
    requires 0x80 <= b < 0xB0 || 0xE0 <= b < 0xF0
    ensures (Tables(); CharOf(b, CP866) == if b < 0xB0 then 0x410 + (b - 0x80) else 0x440 + (b - 0xE0))
  {
    Tables();
    hide CharOf, IsTable;
    var r, j := (b - 0x80) / 16, (b - 0x80) % 16;
    Rows866Letters(r, j);
    CharAt(CP866, r, j);
  }

  lemma SmallAt(r: nat, j: nat)
    requires r < 2 && j < 16
    ensures |KOI_SMALL[r]| == 16 && Small(16 * r + j) == KOI_SMALL[r][j]
  {
    var k := 16 * r + j;
    assert k / 16 == r && k % 16 == j;
  }

  lemma Koi8rAt(r: nat, j: nat, capital: bool)
    requires r < 2 && j < 16
    ensures (Tables();
             CharOf(0xC0 + 16 * r + j + (if capital then 0x20 else 0), KOI8R) ==
             Small(16 * r + j) - (if capital then 0x20 else 0))
  {
    Tables();
    hide CharOf, IsTable, Small;
    var row := if capital then 6 + r else 4 + r;
    SmallAt(r, j);
    RowsKoi8rLetters(row, j);
    CharAt(KOI8R, row, j);
    assert row % 2 == r;
  }

  lemma Koi8rLetters(b: Byte)
    requires b >= 0xC0
    ensures (Tables(); CharOf(b, KOI8R) == if b < 0xE0 then Small(b - 0xC0) else Small(b - 0xE0) - 0x20)
  {
    Tables();
    hide CharOf, IsTable, Small;
    var k := if b < 0xE0 then b - 0xC0 else b - 0xE0;
    Koi8rAt(k / 16, k % 16, b >= 0xE0);
  }

  // A text in a single-byte encoding, that encoding asked for, is converted byte for byte if and only if its
  // first bytes are no mark of any encoding.
  lemma AskedBytes(p: seq<Byte>, asked: Enc, t: Table)
    requires (asked == Cp1251 && t == CP1251) || (asked == Cp866 && t == CP866) || (asked == Koi8r && t == KOI8R)
    ensures (Tables(); Converted(p, asked) == Encode(CharsOf(p, t)) <==> BomLen(p) == 0)
  {
    Tables();
    hide CharOf, IsTable, Encode, Read16;
    var body := p[BomLen(p)..];
    OneCode(CharsOf(body, t), CharsOf(p, t));
    if BomLen(p) == 0 {
      assert body == p;
    } else {
      assert |CharsOf(body, t)| < |CharsOf(p, t)|;
    }
  }

  // Letters of Windows-1251 and characters below 0x80.
  function Windows(b: Byte): Code {
    if b < 0x80 then b else var c: int := b; c - 0xC0 + 0x410
  }

  // They come out as what they are.
  lemma Cp1251Text(p: seq<Byte>)
    requires BomLen(p) == 0 && forall i :: 0 <= i < |p| ==> p[i] < 0x80 || p[i] >= 0xC0
    ensures Converted(p, Cp1251) == Encode(seq(|p|, i requires 0 <= i < |p| => Windows(p[i])))
  {
    Tables();
    AskedBytes(p, Cp1251, CP1251);
    var cs: seq<Code> := seq(|p|, i requires 0 <= i < |p| => Windows(p[i]));
    forall i | 0 <= i < |p| ensures CharsOf(p, CP1251)[i] == cs[i] {
      if p[i] >= 0x80 { Cp1251Letters(p[i]); }
    }
    assert CharsOf(p, CP1251) == cs;
  }

  // A byte the encoding does not define comes out as the replacement character.
  lemma UndefinedByte()
    ensures Converted([0x98], Cp1251) == [0xEF, 0xBF, 0xBD]
  {
    Tables();
    var p: seq<Byte> := [0x98];
    AskedBytes(p, Cp1251, CP1251);
    assert CP1251[1][8] == 0;
    assert CharsOf(p, CP1251) == [0xFFFD];
    assert [0xFFFD][1..] == [] && Put(0xFFFD) == [0xEF, 0xBF, 0xBD];
    assert Encode([0xFFFD]) == Put(0xFFFD) + Encode([]);
  }

  // ---- which bytes are letters

  lemma Rows1251(r: nat, j: nat)
    requires r < 4 && j < 16
    ensures var u := CP1251[r][j]; (0x0410 <= u <= 0x044F || u == 0x0401 || u == 0x0451) <==> r >= 2 && j == 8
  {
  }

  lemma LettersIn1251(b: Byte)
    requires b >= 0x80
    ensures (Tables(); IsLetter(CharOf(b, CP1251)) <==> b >= 0xC0 || b == 0xA8 || b == 0xB8)
  {
    Tables();
    hide CharOf, IsTable;
    var r, j := (b - 0x80) / 16, (b - 0x80) % 16;
    if b >= 0xC0 {
      Cp1251Letters(b);
    } else {
      Rows1251(r, j);
      CharAt(CP1251, r, j);
    }
  }

  lemma Rows866(r: nat, j: nat)
    requires 3 <= r < 8 && r != 6 && j < 16
    ensures var u := CP866[r][j]; (0x0410 <= u <= 0x044F || u == 0x0401 || u == 0x0451) <==> r == 7 && j < 2
  {
  }

  lemma LettersIn866(b: Byte)
    requires b >= 0x80
    ensures (Tables(); IsLetter(CharOf(b, CP866)) <==> b < 0xB0 || 0xE0 <= b <= 0xF1)
  {
    Tables();
    hide CharOf, IsTable;
    var r, j := (b - 0x80) / 16, (b - 0x80) % 16;
    if b < 0xB0 || 0xE0 <= b < 0xF0 {
      Cp866Letters(b);
    } else {
      Rows866(r, j);
      CharAt(CP866, r, j);
    }
  }

  lemma RowsKoi8r(r: nat, j: nat)
    requires r < 4 && j < 16
    ensures var u := KOI8R[r][j]; (0x0410 <= u <= 0x044F || u == 0x0401 || u == 0x0451) <==> r >= 2 && j == 3
  {
  }

  lemma LettersInKoi8r(b: Byte)
    requires b >= 0x80
    ensures (Tables(); IsLetter(CharOf(b, KOI8R)) <==> b >= 0xC0 || b == 0xA3 || b == 0xB3)
  {
    Tables();
    hide CharOf, IsTable;
    var r, j := (b - 0x80) / 16, (b - 0x80) % 16;
    if b >= 0xC0 {
      Koi8rLetters(b);
    } else {
      RowsKoi8r(r, j);
      CharAt(KOI8R, r, j);
    }
  }

  // ---- detection

  function Highs(p: seq<Byte>): nat {
    if p == [] then 0 else Highs(p[..|p| - 1]) + (if p[|p| - 1] >= 0x80 then 1 else 0)
  }

  // Every byte past 0x7F is a Russian letter in the encoding.
  predicate Fits(p: seq<Byte>, t: Table)
    requires IsTable(t)
  {
    forall i :: 0 <= i < |p| && p[i] >= 0x80 ==> IsLetter(CharOf(p[i], t))
  }

  lemma WeightOfLetter(b: Byte, t: Table)
    requires IsTable(t)
    ensures b < 0x80 ==> Weight(b, t) == 0
    ensures b >= 0x80 ==> Weight(b, t) <= 3 && (Weight(b, t) == 3 <==> IsLetter(CharOf(b, t)))
  {
  }

  // No text scores more than three for each such byte, and just that if all of them are letters.
  lemma {:induction false} ScoreFits(p: seq<Byte>, t: Table)
    requires IsTable(t)
    ensures Score(p, t) <= 3 * Highs(p) && (Score(p, t) == 3 * Highs(p) <==> Fits(p, t))
  {
    if p != [] {
      var init, b := p[..|p| - 1], p[|p| - 1];
      ScoreFits(init, t);
      WeightOfLetter(b, t);
      assert p == init + [b];
      assert Fits(p, t) <==> Fits(init, t) && (b >= 0x80 ==> IsLetter(CharOf(b, t))) by {
        assert forall i :: 0 <= i < |init| ==> init[i] == p[i];
      }
    }
  }

  lemma {:induction false} SomeHigh(p: seq<Byte>)
    ensures Highs(p) == 0 <==> forall i :: 0 <= i < |p| ==> p[i] < 0x80
  {
    if p != [] {
      SomeHigh(p[..|p| - 1]);
      assert forall i :: 0 <= i < |p| - 1 ==> p[..|p| - 1][i] == p[i];
    }
  }

  // Of the single-byte encodings detection takes the first, in the order Windows-1251, CP866, KOI8-R, in which
  // all bytes past 0x7F are letters, if there is one.
  lemma FirstFit(p: seq<Byte>)
    requires BomLen(p) == 0 && !WellFormed(Probed(p))
    ensures (Tables(); Fits(Probed(p), CP1251) ==> Detected(p) == Cp1251)
    ensures (Tables(); !Fits(Probed(p), CP1251) && Fits(Probed(p), CP866) ==> Detected(p) == Cp866)
    ensures (Tables();
             !Fits(Probed(p), CP1251) && !Fits(Probed(p), CP866) && Fits(Probed(p), KOI8R) ==> Detected(p) == Koi8r)
  {
    Tables();
    var q := Probed(p);
    if Highs(q) == 0 {
      SomeHigh(q);
      AsciiWellFormed(q);
    }
    ScoreFits(q, CP1251);
    ScoreFits(q, CP866);
    ScoreFits(q, KOI8R);
  }

  ghost predicate SomeByte(p: seq<Byte>, f: Byte -> bool) {
    exists i :: 0 <= i < |p| && p[i] >= 0x80 && f(p[i])
  }

  // Text of Russian letters in KOI8-R is taken for such exactly if it has the letter io, small or capital, and a
  // letter that is none in CP866.
  lemma Koi8rDetected(p: seq<Byte>)
    requires BomLen(p) == 0 && !WellFormed(Probed(p)) && (Tables(); Fits(Probed(p), KOI8R))
    ensures Detected(p) == Koi8r <==>
            && SomeByte(Probed(p), b => b == 0xA3 || b == 0xB3)
            && SomeByte(Probed(p), b => b != 0xA3 && !(0xE0 <= b <= 0xF1))
  {
    Tables();
    var q := Probed(p);
    FirstFit(p);
    forall i | 0 <= i < |q| && q[i] >= 0x80
      ensures q[i] >= 0xC0 || q[i] == 0xA3 || q[i] == 0xB3
      ensures IsLetter(CharOf(q[i], CP1251)) <==> !(q[i] == 0xA3 || q[i] == 0xB3)
      ensures IsLetter(CharOf(q[i], CP866)) <==> !(q[i] != 0xA3 && !(0xE0 <= q[i] <= 0xF1))
    {
      LettersInKoi8r(q[i]);
      LettersIn1251(q[i]);
      LettersIn866(q[i]);
    }
  }

  // Text of Russian letters in CP866 is taken for such exactly if it has a letter that is none in Windows-1251.
  lemma Cp866Detected(p: seq<Byte>)
    requires BomLen(p) == 0 && !WellFormed(Probed(p)) && (Tables(); Fits(Probed(p), CP866))
    ensures Detected(p) == Cp866 <==> SomeByte(Probed(p), b => b < 0xC0 && b != 0xA8)
  {
    Tables();
    var q := Probed(p);
    FirstFit(p);
    forall i | 0 <= i < |q| && q[i] >= 0x80
      ensures q[i] < 0xB0 || 0xE0 <= q[i] <= 0xF1
      ensures IsLetter(CharOf(q[i], CP1251)) <==> !(q[i] < 0xC0 && q[i] != 0xA8)
    {
      LettersIn866(q[i]);
      LettersIn1251(q[i]);
    }
  }

  // Bytes that are no continuation bytes are no UTF-8, unless they are all below 0x80.
  lemma {:induction false} NoContinuation(p: seq<Byte>)
    requires forall i :: 0 <= i < |p| ==> p[i] < 0x80 || p[i] >= 0xC0
    ensures WellFormed(p) <==> forall i :: 0 <= i < |p| ==> p[i] < 0x80
  {
    if forall i :: 0 <= i < |p| ==> p[i] < 0x80 {
      AsciiWellFormed(p);
    } else {
      WellFormedDecodes(p);
      HighUndecoded(p);
    }
  }

  lemma {:induction false} HighUndecoded(p: seq<Byte>)
    requires forall i :: 0 <= i < |p| ==> p[i] < 0x80 || p[i] >= 0xC0
    requires exists i :: 0 <= i < |p| && p[i] >= 0x80
    ensures Decode(p).None?
  {
    if p[0] < 0x80 {
      assert Strict(p) == Char(p[0], 1);
      var i :| 0 <= i < |p| && p[i] >= 0x80;
      assert p[1..][i - 1] == p[i];
      HighUndecoded(p[1..]);
    } else {
      assert Strict(p).Bad?;
    }
  }

  lemma OtherLetter(b: Byte)
    requires b >= 0xC0
    ensures (Tables(); IsLetter(CharOf(b, CP1251)) && IsLetter(CharOf(b, KOI8R)))
    ensures (Tables(); CharOf(b, CP1251) != CharOf(b, KOI8R))
  {
    Tables();
    hide CharOf, IsTable;
    Cp1251Letters(b);
    Koi8rLetters(b);
  }

  // Russian text in KOI8-R without the letter io is always read as Windows-1251, and every letter of it wrong.
  lemma Koi8rMisread(p: seq<Byte>)
    requires BomLen(p) == 0 && forall i :: 0 <= i < |p| ==> p[i] < 0x80 || p[i] >= 0xC0
    requires SomeByte(Probed(p), b => true)
    ensures (Tables(); Converted(p, Unknown) == Encode(CharsOf(p, CP1251)))
    ensures (Tables(); forall i :: 0 <= i < |p| && p[i] >= 0x80 ==>
                         CharsOf(p, CP1251)[i] != CharsOf(p, KOI8R)[i] && IsLetter(CharsOf(p, KOI8R)[i]))
  {
    Tables();
    hide CharOf, IsTable, Encode, WellFormed;
    var q := Probed(p);
    NoContinuation(q);
    forall i | 0 <= i < |p| && p[i] >= 0x80
      ensures IsLetter(CharOf(p[i], CP1251)) && IsLetter(CharOf(p[i], KOI8R))
      ensures CharOf(p[i], CP1251) != CharOf(p[i], KOI8R)
    {
      OtherLetter(p[i]);
    }
    assert Fits(q, CP1251);
    FirstFit(p);
    assert p[0..] == p;
  }
}
