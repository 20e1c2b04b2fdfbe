// What the builder writes is JSON: its text is in the grammar of RFC 8259 and means the tree it was written for.

module JsonWritten {
  import Utf8
  import opened JsonText
  import opened JsonRoundTrip
  import opened JsonGrammar
  import opened JsonUnique

  // ---- strings

  // The piece a character is written as.
  function PieceOf(c: char): Piece {
    if c == '"' || c == '\\' then Short(c)
    else if c == '\n' then Short('n')
    else if c == '\r' then Short('r')
    else if c == '\t' then Short('t')
    else if c < ' ' then Unit("00" + [HexDigit(c as int / 16), HexDigit(c as int % 16)])
    else Raw(c)
  }

  function PiecesOf(s: string): (ps: seq<Piece>)
    ensures |ps| == |s| && forall i :: 0 <= i < |s| ==> ps[i] == PieceOf(s[i])
  {
    seq(|s|, i requires 0 <= i < |s| => PieceOf(s[i]))
  }

  // A piece with the escape for one control character: no half of a surrogate pair.
  lemma ControlUnit(c: char)
    requires c < ' '
    ensures var h := "00" + [HexDigit(c as int / 16), HexDigit(c as int % 16)]; FourHex(h) && Four(h) == c as int
  {
    var a, b := c as int / 16, c as int % 16;
    var h := "00" + [HexDigit(a), HexDigit(b)];
    assert h[0] == '0' && h[1] == '0' && h[2] == HexDigit(a) && h[3] == HexDigit(b);
    assert HexVal(h[2]) == a && HexVal(h[3]) == b;
  }

  lemma ControlEscaped(c: char, rest: string)
    requires c < ' ' && c != '\n' && c != '\r' && c != '\t'
    ensures var h := "00" + [HexDigit(c as int / 16), HexDigit(c as int % 16)];
            && FourHex(h) && Four(h) == c as int && Escaped(c) + rest == "\\u" + (h + rest)
            && PieceMeant(Unit(h)) == [c]
  {
    hide HexDigit, Four, FourHex, PieceText;
    ControlUnit(c);
    var x := [HexDigit(c as int / 16), HexDigit(c as int % 16)];
    assert Escaped(c) == "\\u00" + x;
    Rejoin(x, rest);
    UnitMeant("00" + x, c);
  }

  lemma Rejoin(x: string, rest: string)
    ensures "\\u00" + x + rest == "\\u" + ("00" + x + rest)
  {
  }

  lemma UnitMeant(h: string, c: char)
    requires FourHex(h) && c < ' ' && Four(h) == c as int
    ensures PieceMeant(Unit(h)) == [c]
  {
    hide Four, FourHex;
  }

  lemma ShortMeant(c: char)
    requires c in "\"\\nrt"
    ensures PieceMeant(Short(c)) == [CodePoint(Short(c)) as char]
  {
  }

  // Every character is written as a piece of the grammar that means just that character.
  lemma EscapedPiece(c: char, rest: string)
    ensures var p := PieceOf(c);
            && PieceOk(p) && Escaped(c) + rest == PieceText(p, rest) && PieceMeant(p) == [c] && Kept(p)
            && (p.Raw? ==> ' ' <= p.c) && (p.Unit? ==> Four(p.h) < 0x20)
  {
    hide HexDigit, Four, FourHex, Utf8.Put;
    if c < ' ' && c != '\n' && c != '\r' && c != '\t' {
      ControlEscaped(c, rest);
    } else if c in "\"\\\n\r\t" {
      ShortMeant(PieceOf(c).c);
    }
  }

  lemma PiecesTail(s: string)
    requires s != []
    ensures PiecesOf(s)[1..] == PiecesOf(s[1..])
  {
  }

  lemma {:induction false} PiecesOfOk(s: string)
    ensures PiecesOk(PiecesOf(s)) && AllKept(PiecesOf(s)) && CleanPieces(PiecesOf(s))
  {
    hide PieceOf;
    var ps := PiecesOf(s);
    forall i | 0 <= i < |ps|
      ensures PieceOk(ps[i]) && Kept(ps[i]) && (ps[i].Raw? ==> ' ' <= ps[i].c) && (ps[i].Unit? ==> Four(ps[i].h) < 0x20)
    {
      EscapedPiece(s[i], "");
    }
    if s != [] {
      PiecesTail(s);
      PiecesOfOk(s[1..]);
    }
  }

  lemma {:induction false} EscapedPieces(s: string, rest: string)
    requires PiecesOk(PiecesOf(s))
    ensures EscapedAll(s) + rest == PiecesText(PiecesOf(s), rest) && PiecesMeant(PiecesOf(s)) == s
  {
    hide PieceOf, Escaped, PieceText, PieceMeant, PieceOk, Apart;
    if s == [] {
      assert EscapedAll(s) + rest == rest;
    } else {
      PiecesTail(s);
      EscapedPieces(s[1..], rest);
      EscapedPiece(s[0], EscapedAll(s[1..]) + rest);
      assert EscapedAll(s) + rest == Escaped(s[0]) + (EscapedAll(s[1..]) + rest);
      assert s == [s[0]] + s[1..];
    }
  }

  // Keys go out as they are.
  function RawPieces(k: string): (ps: seq<Piece>)
    ensures |ps| == |k| && forall i :: 0 <= i < |k| ==> ps[i] == Raw(k[i])
  {
    seq(|k|, i requires 0 <= i < |k| => Raw(k[i]))
  }

  ghost predicate CleanKey(k: string) {
    forall i :: 0 <= i < |k| ==> ' ' <= k[i]
  }

  lemma KeyClean(k: string)
    ensures CleanPieces(RawPieces(k)) <==> CleanKey(k)
  {
    var ps := RawPieces(k);
    if CleanPieces(ps) {
      forall i | 0 <= i < |k| ensures ' ' <= k[i] { assert ps[i] == Raw(k[i]); }
    }
  }

  lemma {:induction false} KeyPieces(k: string, rest: string)
    requires PlainKey(k)
    ensures var ps := RawPieces(k);
            PiecesOk(ps) && k + rest == PiecesText(ps, rest) && PiecesMeant(ps) == k && AllKept(ps)
  {
    hide CodePoint, Four;
    if k == [] {
      assert k + rest == rest;
    } else {
      assert RawPieces(k)[1..] == RawPieces(k[1..]);
      KeyPieces(k[1..], rest);
      assert k + rest == [k[0]] + (k[1..] + rest);
      assert k == [k[0]] + k[1..];
    }
  }

  // ---- numbers

  lemma {:induction false} LeadingZero(n: nat)
    ensures Digits(n)[0] == '0' ==> n == 0
  {
    if n >= 10 { LeadingZero(n / 10); }
  }

  lemma DecimalNumber(v: int)
    ensures Number(Decimal(v))
  {
    var m, k := if v < 0 then -v else v, if v < 0 then 1 else 0;
    var t := Decimal(v);
    DecimalText(v, "");
    DigitsValue(m);
    LeadingZero(m);
    CountDigits(Digits(m), "");
    assert t + "" == t && Digits(m) + "" == Digits(m);
    assert t[k..] == Digits(m) && t[k] == Digits(m)[0];
    assert t[k + |Digits(m)|..] == [];
  }

  lemma DecimalMeant(v: int, other: Strtod)
    requires -EXACT <= v <= EXACT
    ensures ReadNumber(Decimal(v), other).0 == v as real
  {
    ReadDecimal(v, "", other);
    assert Decimal(v) + "" == Decimal(v);
  }

  // ---- trees

  function FormOf(v: Json): Form
    decreases v, 0
  {
    match v
    case Bool(b) => FBool(b)
    case Num(n) => FNumber(Decimal(n.Floor))
    case Str(s) => FString(PiecesOf(s))
    case Arr(items) => FArray("", ItemsOf(items))
    case Obj(members) => FObject("", MembersOf(members))
    case _ => FNull
  }

  function ItemsOf(l: Items): FItems
    decreases l, 1
  {
    if l.NoItem? then NoFItem else FItem("", FormOf(l.head), "", ItemsOf(l.tail))
  }

  function MembersOf(l: Members): FMembers
    decreases l, 1
  {
    if l.NoMember? then NoFMember
    else FMember("", RawPieces(if l.key.Key? then l.key.s else ""), "", "", FormOf(l.val), "", MembersOf(l.tail))
  }

  ghost predicate CleanKeys(v: Json)
    decreases v, 0
  {
    match v
    case Arr(items) => CleanKeysIn(items)
    case Obj(members) => CleanKeysOf(members)
    case _ => true
  }

  ghost predicate CleanKeysIn(l: Items)
    decreases l, 1
  {
    l.Item? ==> CleanKeys(l.head) && CleanKeysIn(l.tail)
  }

  ghost predicate CleanKeysOf(l: Members)
    decreases l, 1
  {
    l.Member? ==> (l.key.Key? ==> CleanKey(l.key.s)) && CleanKeys(l.val) && CleanKeysOf(l.tail)
  }

  lemma Enclosed(open: string, t: string, close: string, rest: string)
    ensures open + (t + (close + rest)) == open + t + close + rest
    ensures t == "" ==> t + (close + rest) == close + rest
  {
  }

  // The text of a tree is that of its form, which is clean exactly if the keys are.
  lemma {:induction false} Written(v: Json, rest: string)
    requires Writable(v)
    ensures FormOk(FormOf(v)) && FormText(FormOf(v), rest) == Text(v) + rest
    ensures Clean(FormOf(v)) <==> CleanKeys(v)
    decreases v, 0
  {
    hide Number, PiecesOk, CleanPieces, PiecesOf;
    if v.Num? {
      DecimalNumber(v.n.Floor);
    } else if v.Str? {
      PiecesOfOk(v.s);
      EscapedPieces(v.s, "\"" + rest);
      Enclosed("\"", EscapedAll(v.s), "\"", rest);
    } else if v.Arr? {
      WrittenItems(v.items, "]" + rest);
      Enclosed("[", ItemsText(v.items), "]", rest);
    } else if v.Obj? {
      WrittenMembers(v.members, "}" + rest);
      Enclosed("{", MembersText(v.members), "}", rest);
    }
  }

  lemma {:induction false} WrittenItems(l: Items, rest: string)
    requires WritableItems(l)
    ensures FItemsOk(ItemsOf(l)) && FItemsText(ItemsOf(l), rest) == ItemsText(l) + rest
    ensures CleanItems(ItemsOf(l)) <==> CleanKeysIn(l)
    decreases l, 1
  {
    hide FormOf, FormText, FormOk;
    if l.NoItem? {
      assert "" + rest == rest;
    } else {
      var more := if l.tail.NoItem? then rest else "," + FItemsText(ItemsOf(l.tail), rest);
      WrittenItems(l.tail, rest);
      Written(l.head, "" + more);
      assert FItemsText(ItemsOf(l), rest) == "" + FormText(FormOf(l.head), "" + more);
      ItemsJoin(Text(l.head), ItemsText(l.tail), rest);
      assert "" + more == more && "" + (Text(l.head) + more) == Text(l.head) + more;
    }
  }

  lemma ItemsJoin(t: string, u: string, rest: string)
    ensures t + ("," + (u + rest)) == t + ("," + u) + rest
    ensures t + rest == t + "" + rest
  {
  }

  lemma KeyJoin(k: string, t: string, more: string)
    ensures "" + ("\"" + (k + ("\"" + ("" + (":" + ("" + (t + more))))))) == "\"" + k + "\":" + t + more
  {
    assert "" + (t + more) == t + more && "" + (":" + (t + more)) == ":" + (t + more);
    assert "\"" + (":" + (t + more)) == "\":" + (t + more);
    assert "\"" + (k + ("\":" + (t + more))) == "\"" + k + "\":" + (t + more);
  }

  lemma MembersJoin(k: string, t: string, u: string, rest: string)
    ensures k + t + ("," + (u + rest)) == k + t + ("," + u) + rest
    ensures k + t + rest == k + t + "" + rest
  {
  }

  lemma {:induction false} WrittenMembers(l: Members, rest: string)
    requires WritableMembers(l)
    ensures FMembersOk(MembersOf(l)) && FMembersText(MembersOf(l), rest) == MembersText(l) + rest
    ensures CleanMembers(MembersOf(l)) <==> CleanKeysOf(l)
    decreases l, 1
  {
    hide FormOf, FormOk, Text, CleanKeys, CleanPieces, PieceText;
    if l.NoMember? {
      assert "" + rest == rest;
    } else {
      var more := if l.tail.NoMember? then rest else "," + FMembersText(MembersOf(l.tail), rest);
      var m, k, t := MembersOf(l), l.key.s, Text(l.val);
      WrittenMembers(l.tail, rest);
      assert MemberEnd(m, rest) == "" + more == more;
      Written(l.val, more);
      assert AfterKey(m, rest) == "" + (":" + ("" + (t + more)));
      KeyPieces(k, "\"" + AfterKey(m, rest));
      KeyClean(k);
      KeyJoin(k, t, more);
      MembersJoin(KeyText(l.key), t, MembersText(l.tail), rest);
    }
  }

  // Read as it is meant, the text of a tree is the tree.
  lemma {:induction false} Means(v: Json, other: Strtod)
    requires Writable(v) && FormOk(FormOf(v))
    ensures Tree(FormOf(v), true, other) == v
    decreases v, 0
  {
    match v
    case Num(n) => DecimalMeant(n.Floor, other);
    case Str(s) => PiecesOfOk(s); EscapedPieces(s, "");
    case Arr(items) => ItemsMean(items, other);
    case Obj(members) => MembersMean(members, other);
    case _ =>
  }

  lemma {:induction false} ItemsMean(l: Items, other: Strtod)
    requires WritableItems(l) && FItemsOk(ItemsOf(l))
    ensures TreeItems(ItemsOf(l), true, other) == l
    decreases l, 1
  {
    if l.Item? {
      Means(l.head, other);
      ItemsMean(l.tail, other);
    }
  }

  lemma {:induction false} MembersMean(l: Members, other: Strtod)
    requires WritableMembers(l) && FMembersOk(MembersOf(l))
    ensures TreeMembers(MembersOf(l), true, other) == l
    decreases l, 1
  {
    if l.Member? {
      KeyPieces(l.key.s, "");
      Means(l.val, other);
      MembersMean(l.tail, other);
    }
  }

  // For every tree that can be written: its text means the tree, and it is JSON exactly if no key holds a
  // control character.
  lemma WrittenIsJson(v: Json, other: Strtod)
    requires Writable(v)
    ensures IsText(Text(v)) && TextMeant(Text(v), other) == v
    ensures IsDocument(Text(v)) <==> CleanKeys(v)
  {
    var d := Doc("", FormOf(v), "");
    Written(v, "");
    assert DocText(d) == "" + (Text(v) + "") == Text(v);
    DocOfText(d);
    Means(v, other);
  }

  // It happens: a key with a line feed is written as it is, which RFC 8259 forbids.
  lemma LineFeedInKey(other: Strtod)
    ensures var v := Obj(Member(Key("\n"), Null, NoMember));
            Writable(v) && Text(v) == "{\"\n\":null}" && !IsDocument(Text(v))
  {
    var v := Obj(Member(Key("\n"), Null, NoMember));
    assert "\n"[0] < ' ' && !CleanKey("\n");
    assert !CleanKeysOf(v.members);
    assert Text(v) == "{" + ("\"" + "\n" + "\":" + "null" + "") + "}";
    WrittenIsJson(v, other);
  }

  // Two texts as they stand: escapes, a control character, a negative number.
  lemma EscapedExample()
    ensures EscapedAll("a\n\"" + [0x1F as char]) == "a\\n\\\"\\u001f"
  {
    var s3: string := [0x1F as char];
    var s2, s1 := "\"" + s3, "\n" + ("\"" + s3);
    assert HexDigit(1) == '1' && HexDigit(15) == 'f';
    assert Escaped(0x1F as char) == "\\u00" + ['1', 'f'] == "\\u001f";
    assert s3[1..] == [] && s2[1..] == s3 && s1[1..] == s2 && ("a" + s1)[1..] == s1;
    assert EscapedAll(s3) == "\\u001f" + "";
    assert EscapedAll(s2) == "\\\"" + EscapedAll(s3);
    assert EscapedAll(s1) == "\\n" + EscapedAll(s2);
    assert EscapedAll("a" + s1) == "a" + EscapedAll(s1);
    assert "a" + s1 == "a\n\"" + s3;
  }

  lemma DecimalExample()
    ensures Decimal(-1203) == "-1203"
  {
    assert Digits(12) == "1" + "2" && Digits(120) == Digits(12) + "0" && Digits(1203) == Digits(120) + "3";
  }
}
