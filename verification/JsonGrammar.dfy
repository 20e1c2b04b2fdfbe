// JSON text in general: every text of the grammar of RFC 8259 is read, and exactly which are read as meant.

module JsonGrammar {
  import Utf8
  import opened JsonText
  import opened JsonRoundTrip

  // ---- strings

  // A piece of a string as it is written: a character, a backslash and a letter, one code unit in hexadecimal
  // digits, or the two code units of a surrogate pair.
  datatype Piece = Raw(c: char) | Short(c: char) | Unit(h: string) | Pair(hi: string, lo: string)

  // Its text, with what follows.
  function PieceText(p: Piece, rest: string): string {
    match p
    case Raw(c) => [c] + rest
    case Short(c) => "\\" + ([c] + rest)
    case Unit(h) => "\\u" + (h + rest)
    case Pair(hi, lo) => "\\u" + (hi + ("\\u" + (lo + rest)))
  }

  predicate IsHex(c: char) {
    '0' <= c <= '9' || 'a' <= c <= 'f' || 'A' <= c <= 'F'
  }

  predicate FourHex(h: string) {
    |h| == 4 && forall i :: 0 <= i < 4 ==> IsHex(h[i])
  }

  function Four(h: string): (n: nat)
    requires |h| == 4
    ensures n < 0x10000
  {
    HexVal(h[0]) * 4096 + HexVal(h[1]) * 256 + HexVal(h[2]) * 16 + HexVal(h[3])
  }

  // The grammar but for control characters, which it forbids in strings; here they may stand there as they are,
  // and Clean says that none does.
  predicate PieceOk(p: Piece) {
    match p
    case Raw(c) => c != '"' && c != '\\'
    case Short(c) => c in "\"\\/bfnrt"
    case Unit(h) => FourHex(h)
    case Pair(hi, lo) => FourHex(hi) && FourHex(lo) && High(Four(hi)) && Low(Four(lo))
  }

  // The halves of a surrogate pair.
  predicate High(n: nat) {
    0xD800 <= n < 0xDC00
  }

  predicate Low(n: nat) {
    0xDC00 <= n < 0xE000
  }

  // Two units that are the halves of a pair are a pair, and not two units.
  predicate Apart(p: Piece, q: Piece)
    requires PieceOk(p) && PieceOk(q)
  {
    p.Unit? && q.Unit? ==> !(High(Four(p.h)) && Low(Four(q.h)))
  }

  // What the parser makes of it.
  function PieceRead(p: Piece): string
    requires PieceOk(p)
  {
    match p
    case Raw(c) => [c]
    case Short(c) => if c == 'n' then "\n" else if c == 'r' then "\r" else if c == 't' then "\t" else [c]
    case Unit(h) => Utf8Of(Four(h))
    case Pair(hi, lo) => Utf8Of(Four(hi)) + Utf8Of(Four(lo))
  }

  function Chars(bs: seq<Utf8.Byte>): (s: string)
    ensures |s| == |bs| && forall i :: 0 <= i < |bs| ==> s[i] == bs[i] as char
  {
    seq(|bs|, i requires 0 <= i < |bs| => bs[i] as char)
  }

  // The code point it stands for (RFC 8259, section 7); what a surrogate alone is to mean the standard leaves
  // open, and here it counts as the code point of its number.
  function CodePoint(p: Piece): Utf8.Code
    requires PieceOk(p) && !p.Raw?
  {
    match p
    case Short(c) =>
      if c == 'b' then 8 else if c == 'f' then 12 else if c == 'n' then 10 else if c == 'r' then 13
      else if c == 't' then 9 else if c == '"' then 34 else if c == '\\' then 92 else 47
    case Unit(h) => Four(h)
    case Pair(hi, lo) => 0x10000 + (Four(hi) - 0xD800) * 0x400 + (Four(lo) - 0xDC00)
  }

  // What it means: the bytes of that code point in UTF-8; a byte that is no escape means itself.
  function PieceMeant(p: Piece): string
    requires PieceOk(p)
  {
    if p.Raw? then [p.c] else Chars(Utf8.Put(CodePoint(p)))
  }

  predicate PiecesOk(ps: seq<Piece>) {
    ps == [] || (PieceOk(ps[0]) && PiecesOk(ps[1..]) && (|ps| > 1 ==> Apart(ps[0], ps[1])))
  }

  function PiecesText(ps: seq<Piece>, rest: string): string {
    if ps == [] then rest else PieceText(ps[0], PiecesText(ps[1..], rest))
  }

  function PiecesRead(ps: seq<Piece>): string
    requires PiecesOk(ps)
  {
    if ps == [] then "" else PieceRead(ps[0]) + PiecesRead(ps[1..])
  }

  function PiecesMeant(ps: seq<Piece>): string
    requires PiecesOk(ps)
  {
    if ps == [] then "" else PieceMeant(ps[0]) + PiecesMeant(ps[1..])
  }

  lemma HexFour(h: string, rest: string)
    requires FourHex(h)
    ensures Hex(h + rest, 4, 0) == (Four(h), rest)
  {
    var t := h + rest;
    var a, b, c := HexVal(h[0]), HexVal(h[1]), HexVal(h[2]);
    assert t[1..][1..][1..][1..] == rest;
    assert Hex(t, 4, 0) == Hex(t[1..], 3, a) == Hex(t[1..][1..], 2, a * 16 + b);
    assert Hex(t[1..][1..], 2, a * 16 + b) == Hex(t[1..][1..][1..], 1, (a * 16 + b) * 16 + c);
    assert Hex(t[1..][1..][1..], 1, (a * 16 + b) * 16 + c) == Hex(rest, 0, Four(h));
  }

  lemma ReadUnit(h: string, rest: string)
    requires FourHex(h)
    ensures ReadString("\\u" + (h + rest)) == (Utf8Of(Four(h)) + ReadString(rest).0, ReadString(rest).1)
  {
    var t := "\\u" + (h + rest);
    HexFour(h, rest);
    assert t[1..][1..] == h + rest;
    assert Unescape(t[1..]) == (Utf8Of(Four(h)), rest);
  }

  lemma ReadShort(c: char, rest: string)
    requires PieceOk(Short(c))
    ensures ReadString("\\" + ([c] + rest)) == (PieceRead(Short(c)) + ReadString(rest).0, ReadString(rest).1)
  {
    var t := "\\" + ([c] + rest);
    assert t[1..] == [c] + rest && ([c] + rest)[1..] == rest;
    assert Unescape([c] + rest) == (PieceRead(Short(c)), rest);
  }

  lemma ReadPair(hi: string, lo: string, rest: string)
    requires FourHex(hi) && FourHex(lo)
    ensures ReadString(PieceText(Pair(hi, lo), rest)) ==
            (Utf8Of(Four(hi)) + Utf8Of(Four(lo)) + ReadString(rest).0, ReadString(rest).1)
  {
    var y := "\\u" + (lo + rest);
    ReadUnit(hi, y);
    ReadUnit(lo, rest);
    Joined(Utf8Of(Four(hi)), Utf8Of(Four(lo)), ReadString(rest).0);
    assert PieceText(Pair(hi, lo), rest) == "\\u" + (hi + y);
  }

  lemma Joined(a: string, b: string, c: string)
    ensures a + (b + c) == a + b + c
  {
  }

  lemma ReadPiece(p: Piece, rest: string)
    requires PieceOk(p)
    ensures ReadString(PieceText(p, rest)) == (PieceRead(p) + ReadString(rest).0, ReadString(rest).1)
  {
    match p
    case Raw(c) => assert ([c] + rest)[1..] == rest;
    case Short(c) => ReadShort(c, rest);
    case Unit(h) => ReadUnit(h, rest);
    case Pair(hi, lo) => ReadPair(hi, lo, rest);
  }

  lemma {:induction false} ReadPieces(ps: seq<Piece>, rest: string)
    requires PiecesOk(ps)
    ensures ReadString(PiecesText(ps, "\"" + rest)) == (PiecesRead(ps), rest)
  {
    if ps == [] {
      assert ("\"" + rest)[1..] == rest;
    } else {
      ReadPiece(ps[0], PiecesText(ps[1..], "\"" + rest));
      ReadPieces(ps[1..], rest);
    }
  }

  // The pieces the parser gets right: all but two letters and the surrogate pairs.
  predicate Kept(p: Piece) {
    p != Short('b') && p != Short('f') && !p.Pair?
  }

  predicate AllKept(ps: seq<Piece>) {
    forall i :: 0 <= i < |ps| ==> Kept(ps[i])
  }

  // The parser writes a unit as the encoder would.
  lemma UnitBytes(n: nat)
    requires n < 0x10000
    ensures Utf8Of(n) == Chars(Utf8.Put(n))
  {
  }

  // Another first character, where it is not.
  lemma PieceRight(p: Piece)
    requires PieceOk(p)
    ensures PieceRead(p) != [] && PieceMeant(p) != []
    ensures if Kept(p) then PieceRead(p) == PieceMeant(p) else PieceRead(p)[0] != PieceMeant(p)[0]
  {
    if p.Unit? {
      UnitBytes(Four(p.h));
    } else if p.Short? {
      assert PieceMeant(p) == [CodePoint(p) as char];
    } else if p.Pair? {
      assert PieceRead(p)[0] == Byte(0xE0 + Four(p.hi) / 4096);
    }
  }

  // A string is read as meant exactly if all its pieces are such.
  lemma {:induction false} StringRight(ps: seq<Piece>)
    requires PiecesOk(ps)
    ensures PiecesRead(ps) == PiecesMeant(ps) <==> AllKept(ps)
  {
    if ps != [] {
      var a, b := PieceRead(ps[0]), PieceMeant(ps[0]);
      PieceRight(ps[0]);
      StringRight(ps[1..]);
      if Kept(ps[0]) {
        assert PiecesRead(ps)[|a|..] == PiecesRead(ps[1..]) && PiecesMeant(ps)[|a|..] == PiecesMeant(ps[1..]);
        assert AllKept(ps[1..]) ==> forall i :: 0 < i < |ps| ==> ps[i] == ps[1..][i - 1];
      } else {
        assert PiecesRead(ps)[0] == a[0] && PiecesMeant(ps)[0] == b[0];
      }
    }
  }

  // ---- numbers

  predicate Exponent(t: string) {
    t == [] ||
    (t[0] in "eE" && var u := if |t| > 1 && t[1] in "+-" then t[2..] else t[1..]; u != [] && DigitCount(u) == |u|)
  }

  predicate Fraction(t: string) {
    t != [] && t[0] == '.' ==> DigitCount(t[1..]) > 0 && Exponent(t[1 + DigitCount(t[1..])..])
  }

  // A number (RFC 8259, section 6).
  predicate Number(n: string) {
    n != [] &&
    var k := if n[0] == '-' then 1 else 0;
    var d := DigitCount(n[k..]);
    && d > 0 && (n[k] == '0' ==> d == 1)
    && Fraction(n[k + d..]) && (n[k + d..] == [] || n[k + d] == '.' || Exponent(n[k + d..]))
  }

  // What may follow a value.
  predicate Ends(rest: string) {
    rest == [] || IsSpace(rest[0]) || rest[0] in ",]}"
  }

  predicate Takes(other: Strtod, n: string, rest: string) {
    other(n + rest) == (other(n).0, |n|)
  }

  // The library's number reader takes a number of the grammar whole, whatever ends it.
  ghost predicate Library(other: Strtod) {
    forall n: string, rest: string :: Number(n) && Ends(rest) ==> Takes(other, n, rest)
  }

  lemma {:induction false} CountPrefix(a: string, b: string)
    requires b == [] || !IsDigit(b[0])
    ensures DigitCount(a + b) == DigitCount(a)
  {
    if a == [] {
      assert a + b == b;
    } else {
      assert (a + b)[1..] == a[1..] + b;
      CountPrefix(a[1..], b);
    }
  }

  // The digits at the head of a number, and whether they are all of it.
  lemma Heads(n: string, rest: string, k: nat, d: nat)
    requires Number(n) && Ends(rest) && k == (if n[0] == '-' then 1 else 0) && d == DigitCount(n[k..])
    ensures var t := n + rest;
            && t[0] == n[0] && k <= |t| && DigitCount(t[k..]) == d > 0 && t[k..][..d] == n[k..][..d] && k + d <= |n|
            && (k + d == |t| || !GoesOn(t[k + d]) <==> k + d == |n|)
  {
    hide Fraction;
    var t := n + rest;
    assert t[k..] == n[k..] + rest;
    CountPrefix(n[k..], rest);
    if k + d < |n| {
      assert n[k + d..][0] == n[k + d] == t[k + d];
    } else if rest != [] {
      assert t[k + d] == rest[0];
    }
  }

  // The number read from a text whose head is like that of n.
  lemma SameHead(n: string, t: string, k: nat, d: nat, other: Strtod)
    requires n != [] && t != [] && t[0] == n[0] && k == (if n[0] == '-' then 1 else 0) && k + d <= |n| && k + d <= |t|
    requires DigitCount(n[k..]) == DigitCount(t[k..]) == d > 0 && t[k..][..d] == n[k..][..d]
    requires k + d == |t| || !GoesOn(t[k + d]) <==> k + d == |n|
    requires k + d == |n| || GoesOn(n[k + d])
    requires other(t) == (other(n).0, |n|) && other(n).1 == |n| <= |t|
    ensures ReadNumber(t, other) == (ReadNumber(n, other).0, |n|)
  {
  }

  lemma ReadToken(n: string, rest: string, other: Strtod)
    requires Number(n) && Ends(rest) && Library(other)
    ensures ReadNumber(n + rest, other) == (ReadNumber(n, other).0, |n|)
  {
    var k := if n[0] == '-' then 1 else 0;
    var d := DigitCount(n[k..]);
    Heads(n, rest, k, d);
    Heads(n, "", k, d);
    assert n + "" == n;
    assert Takes(other, n, rest) && Takes(other, n, "");
    SameHead(n, n + rest, k, d, other);
  }

  // ---- values, with the blanks of their text

  datatype Form =
    | FNull
    | FBool(b: bool)
    | FNumber(n: string)
    | FString(ps: seq<Piece>)
    | FArray(gap: string, items: FItems)
    | FObject(gap: string, members: FMembers)

  datatype FItems = NoFItem | FItem(before: string, head: Form, after: string, tail: FItems)

  datatype FMembers =
    | NoFMember
    | FMember(before: string, key: seq<Piece>, gap: string, gap2: string, val: Form, after: string, tail: FMembers)

  // The text of a value, of items and of members, with what follows.
  function FormText(f: Form, rest: string): string
    decreases f, 0
  {
    match f
    case FNull => "null" + rest
    case FBool(b) => (if b then "true" else "false") + rest
    case FNumber(n) => n + rest
    case FString(ps) => "\"" + PiecesText(ps, "\"" + rest)
    case FArray(gap, items) =>
      "[" + (if items.NoFItem? then gap + ("]" + rest) else FItemsText(items, "]" + rest))
    case FObject(gap, members) =>
      "{" + (if members.NoFMember? then gap + ("}" + rest) else FMembersText(members, "}" + rest))
  }

  function FItemsText(l: FItems, rest: string): string
    decreases l, 1
  {
    if l.NoFItem? then rest else l.before + FormText(l.head, ItemEnd(l, rest))
  }

  // What follows an item's value.
  function ItemEnd(l: FItems, rest: string): string
    requires l.FItem?
    decreases l, 0
  {
    l.after + (if l.tail.NoFItem? then rest else "," + FItemsText(l.tail, rest))
  }

  function FMembersText(l: FMembers, rest: string): string
    decreases l, 2
  {
    if l.NoFMember? then rest else l.before + ("\"" + PiecesText(l.key, "\"" + AfterKey(l, rest)))
  }

  function AfterKey(l: FMembers, rest: string): string
    requires l.FMember?
    decreases l, 1
  {
    l.gap + (":" + (l.gap2 + FormText(l.val, MemberEnd(l, rest))))
  }

  function MemberEnd(l: FMembers, rest: string): string
    requires l.FMember?
    decreases l, 0
  {
    l.after + (if l.tail.NoFMember? then rest else "," + FMembersText(l.tail, rest))
  }

  // White space (RFC 8259, section 2), which is less than the parser skips.
  predicate Blank(s: string) {
    forall i :: 0 <= i < |s| ==> s[i] == ' ' || s[i] == '\t' || s[i] == '\n' || s[i] == '\r'
  }

  predicate FormOk(f: Form)
    decreases f, 0
  {
    match f
    case FNumber(n) => Number(n)
    case FString(ps) => PiecesOk(ps)
    case FArray(gap, items) => Blank(gap) && (items.FItem? ==> gap == "") && FItemsOk(items)
    case FObject(gap, members) => Blank(gap) && (members.FMember? ==> gap == "") && FMembersOk(members)
    case _ => true
  }

  predicate FItemsOk(l: FItems)
    decreases l, 1
  {
    l.NoFItem? || (Blank(l.before) && FormOk(l.head) && Blank(l.after) && FItemsOk(l.tail))
  }

  predicate FMembersOk(l: FMembers)
    decreases l, 1
  {
    l.NoFMember? ||
    (Blank(l.before) && PiecesOk(l.key) && Blank(l.gap) && Blank(l.gap2) && FormOk(l.val) && Blank(l.after) &&
        FMembersOk(l.tail))
  }

  // No control character stands as it is in a string.
  predicate CleanPieces(ps: seq<Piece>) {
    forall i :: 0 <= i < |ps| && ps[i].Raw? ==> ' ' <= ps[i].c
  }

  predicate Clean(f: Form)
    decreases f, 0
  {
    match f
    case FString(ps) => CleanPieces(ps)
    case FArray(_, items) => CleanItems(items)
    case FObject(_, members) => CleanMembers(members)
    case _ => true
  }

  predicate CleanItems(l: FItems)
    decreases l, 1
  {
    l.NoFItem? || (Clean(l.head) && CleanItems(l.tail))
  }

  predicate CleanMembers(l: FMembers)
    decreases l, 1
  {
    l.NoFMember? || (CleanPieces(l.key) && Clean(l.val) && CleanMembers(l.tail))
  }

  // The tree of a text, with its strings as they are meant or as the parser reads them.
  function StringOf(ps: seq<Piece>, meant: bool): string
    requires PiecesOk(ps)
  {
    if meant then PiecesMeant(ps) else PiecesRead(ps)
  }

  function Tree(f: Form, meant: bool, other: Strtod): Json
    requires FormOk(f)
    decreases f, 0
  {
    match f
    case FNull => Null
    case FBool(b) => Bool(b)
    case FNumber(n) => Num(ReadNumber(n, other).0)
    case FString(ps) => Str(StringOf(ps, meant))
    case FArray(_, items) => Arr(TreeItems(items, meant, other))
    case FObject(_, members) => Obj(TreeMembers(members, meant, other))
  }

  function TreeItems(l: FItems, meant: bool, other: Strtod): Items
    requires FItemsOk(l)
    decreases l, 1
  {
    if l.NoFItem? then NoItem else Item(Tree(l.head, meant, other), TreeItems(l.tail, meant, other))
  }

  function TreeMembers(l: FMembers, meant: bool, other: Strtod): Members
    requires FMembersOk(l)
    decreases l, 1
  {
    if l.NoFMember? then NoMember
    else Member(Key(StringOf(l.key, meant)), Tree(l.val, meant, other), TreeMembers(l.tail, meant, other))
  }

  // ---- reading it

  lemma {:induction false} SkipBlank(s: string, rest: string)
    requires Blank(s) && (rest == [] || !IsSpace(rest[0]))
    ensures SkipWs(s + rest) == rest
  {
    if s == [] {
      assert s + rest == rest;
      NoBlank(rest);
    } else {
      assert (s + rest)[1..] == s[1..] + rest;
      SkipBlank(s[1..], rest);
    }
  }

  lemma BlankEnds(s: string, rest: string)
    requires Blank(s) && Ends(rest)
    ensures Ends(s + rest)
  {
    if s == [] { assert s + rest == rest; } else { assert (s + rest)[0] == s[0]; }
  }

  // A value's text begins with its own mark, and is longer than what follows.
  lemma {:induction false} FormLonger(f: Form, rest: string)
    requires FormOk(f)
    ensures var t := FormText(f, rest); |t| > |rest| && (t[0] in "ntf\"[{-" || IsDigit(t[0]))
    decreases f, 0
  {
    if f.FString? {
      PiecesLonger(f.ps, "\"" + rest);
    } else if f.FArray? && f.items.FItem? {
      ItemsLonger(f.items, "]" + rest);
    } else if f.FObject? && f.members.FMember? {
      MembersLonger(f.members, "}" + rest);
    }
  }

  lemma {:induction false} PiecesLonger(ps: seq<Piece>, rest: string)
    ensures |PiecesText(ps, rest)| >= |rest|
  {
    if ps != [] { PiecesLonger(ps[1..], rest); }
  }

  lemma {:induction false} ItemsLonger(l: FItems, rest: string)
    requires FItemsOk(l)
    ensures |FItemsText(l, rest)| >= |rest|
    decreases l, 1
  {
    if l.FItem? {
      FormLonger(l.head, ItemEnd(l, rest));
      ItemsLonger(l.tail, rest);
    }
  }

  lemma {:induction false} MembersLonger(l: FMembers, rest: string)
    requires FMembersOk(l)
    ensures |FMembersText(l, rest)| >= |rest|
    decreases l, 1
  {
    if l.FMember? {
      PiecesLonger(l.key, "\"" + AfterKey(l, rest));
      FormLonger(l.val, MemberEnd(l, rest));
      MembersLonger(l.tail, rest);
    }
  }

  lemma ReadFString(ps: seq<Piece>, rest: string, other: Strtod)
    requires PiecesOk(ps)
    ensures Parse(FormText(FString(ps), rest), other) == Done(Str(PiecesRead(ps)), rest)
  {
    var t := FormText(FString(ps), rest);
    assert t[1..] == PiecesText(ps, "\"" + rest);
    ReadPieces(ps, rest);
    StrStep(t, other);
  }

  lemma ReadFNumber(n: string, rest: string, other: Strtod)
    requires Number(n) && Ends(rest) && Library(other)
    ensures Parse(n + rest, other) == Done(Num(ReadNumber(n, other).0), rest)
  {
    FormLonger(FNumber(n), rest);
    ReadToken(n, rest, other);
    assert (n + rest)[0] == n[0];
    NumStep(n + rest, other);
    assert (n + rest)[|n|..] == rest;
  }

  lemma ReadWord(f: Form, rest: string, other: Strtod)
    requires f.FNull? || f.FBool?
    ensures Parse(FormText(f, rest), other) == Done(Tree(f, false, other), rest)
  {
    var w := if f.FNull? then "null" else if f.b then "true" else "false";
    var t := w + rest;
    assert t[..|w|] == w && t[|w|..] == rest;
    NoBlank(t);
  }

  // A bracket, blanks, and the rest, given how the rest reads.
  lemma ArrayStep(u: string, l: Items, rest: string, other: Strtod)
    requires var x := SkipWs(u);
             x != [] && if x[0] == ']' then l == NoItem && x[1..] == rest else ParseItems(x, other) == Done(l, rest)
    ensures Parse("[" + u, other) == Done(Arr(l), rest)
  {
    assert ("[" + u)[1..] == u;
    NoBlank("[" + u);
  }

  lemma ObjectStep(u: string, l: Members, rest: string, other: Strtod)
    requires var x := SkipWs(u);
             x != [] && if x[0] == '}' then l == NoMember && x[1..] == rest else ParseMembers(x, other) == Done(l, rest)
    ensures Parse("{" + u, other) == Done(Obj(l), rest)
  {
    assert ("{" + u)[1..] == u;
    NoBlank("{" + u);
  }

  // The parser reads every text of the grammar to its end, whatever ends it.
  lemma {:induction false} ReadForm(f: Form, rest: string, other: Strtod)
    requires FormOk(f) && Ends(rest) && Library(other)
    ensures Parse(FormText(f, rest), other) == Done(Tree(f, false, other), rest)
    decreases f, 0
  {
    match f
    case FArray(gap, items) =>
      var u := if items.NoFItem? then gap + ("]" + rest) else FItemsText(items, "]" + rest);
      if items.NoFItem? {
        SkipBlank(gap, "]" + rest);
      } else {
        ItemsBegin(items, "]" + rest);
        ReadFItems(items, rest, SkipWs(u), other);
      }
      ArrayStep(u, TreeItems(items, false, other), rest, other);
    case FObject(gap, members) =>
      var u := if members.NoFMember? then gap + ("}" + rest) else FMembersText(members, "}" + rest);
      if members.NoFMember? {
        SkipBlank(gap, "}" + rest);
      } else {
        MembersBegin(members, "}" + rest);
        ReadFMembers(members, rest, SkipWs(u), other);
      }
      ObjectStep(u, TreeMembers(members, false, other), rest, other);
    case FString(ps) => ReadFString(ps, rest, other);
    case FNumber(n) => ReadFNumber(n, rest, other);
    case _ => ReadWord(f, rest, other);
  }

  lemma ItemsBegin(l: FItems, rest: string)
    requires l.FItem? && FItemsOk(l)
    ensures var x := FormText(l.head, ItemEnd(l, rest));
            SkipWs(FItemsText(l, rest)) == x == SkipWs(x) && x != [] && x[0] !in "]},:" && !IsSpace(x[0])
  {
    var x := FormText(l.head, ItemEnd(l, rest));
    FormLonger(l.head, ItemEnd(l, rest));
    SkipBlank(l.before, x);
    NoBlank(x);
  }

  lemma MembersBegin(l: FMembers, rest: string)
    requires l.FMember? && FMembersOk(l)
    ensures var x := "\"" + PiecesText(l.key, "\"" + AfterKey(l, rest));
            SkipWs(FMembersText(l, rest)) == x == SkipWs(x) && x[0] == '"'
  {
    var x := "\"" + PiecesText(l.key, "\"" + AfterKey(l, rest));
    SkipBlank(l.before, x);
    NoBlank(x);
  }

  // What follows a value inside brackets ends it, and is a mark and a rest, after blanks.
  lemma EndReads(after: string, mark: char, w: string)
    requires Blank(after) && mark in ",]}"
    ensures Ends(after + ([mark] + w)) && SkipWs(after + ([mark] + w)) == [mark] + w
  {
    SkipBlank(after, [mark] + w);
    BlankEnds(after, [mark] + w);
  }

  lemma {:induction false} ReadFItems(l: FItems, rest: string, t: string, other: Strtod)
    requires l.FItem? && FItemsOk(l) && Library(other)
    requires SkipWs(t) == SkipWs(FItemsText(l, "]" + rest))
    ensures ParseItems(t, other) == Done(TreeItems(l, false, other), rest)
    decreases l, 1
  {
    var u := ItemEnd(l, "]" + rest);
    var w := if l.tail.NoFItem? then rest else FItemsText(l.tail, "]" + rest);
    var mark := if l.tail.NoFItem? then ']' else ',';
    ItemsBegin(l, "]" + rest);
    EndReads(l.after, mark, w);
    FormLonger(l.head, u);
    ReadForm(l.head, u, other);
    if l.tail.FItem? { ReadFItems(l.tail, rest, w, other); }
    ItemStep(t, Tree(l.head, false, other), u, mark, w, TreeItems(l.tail, false, other), rest, other);
  }

  lemma AfterColon(gap: string, gap2: string, y: string)
    requires Blank(gap) && Blank(gap2) && (y == [] || !IsSpace(y[0]))
    ensures var v := SkipWs(gap + (":" + (gap2 + y))); v != [] && v[0] == ':' && SkipWs(v[1..]) == y
  {
    SkipBlank(gap, ":" + (gap2 + y));
    assert (":" + (gap2 + y))[1..] == gap2 + y;
    SkipBlank(gap2, y);
  }

  lemma FKeyStep(t: string, body: string, k: string, x: string, y: string)
    requires SkipWs(t) == "\"" + body && ReadString(body) == (k, x)
    requires var v := SkipWs(x); v != [] && v[0] == ':' && SkipWs(v[1..]) == y
    ensures ReadKey(t) == (Key(k), y)
  {
    assert SkipWs(t)[1..] == body;
  }

  // The key and what is around its colon.
  lemma ReadFKey(l: FMembers, rest: string, t: string)
    requires l.FMember? && FMembersOk(l) && SkipWs(t) == "\"" + PiecesText(l.key, "\"" + AfterKey(l, rest))
    ensures ReadKey(t) == (Key(PiecesRead(l.key)), FormText(l.val, MemberEnd(l, rest)))
    ensures |FormText(l.val, MemberEnd(l, rest))| < |t|
  {
    hide ReadString, PiecesRead, PiecesText, PiecesOk, PieceOk, ReadKey, SkipWs, MemberEnd;
    var x, y := AfterKey(l, rest), FormText(l.val, MemberEnd(l, rest));
    ReadPieces(l.key, x);
    PiecesLonger(l.key, "\"" + x);
    FormLonger(l.val, MemberEnd(l, rest));
    AfterColon(l.gap, l.gap2, y);
    FKeyStep(t, PiecesText(l.key, "\"" + x), PiecesRead(l.key), x, y);
  }

  lemma {:induction false} ReadFMembers(l: FMembers, rest: string, t: string, other: Strtod)
    requires l.FMember? && FMembersOk(l) && Library(other)
    requires SkipWs(t) == SkipWs(FMembersText(l, "}" + rest))
    ensures ParseMembers(t, other) == Done(TreeMembers(l, false, other), rest)
    decreases l, 1
  {
    var u := MemberEnd(l, "}" + rest);
    var w := if l.tail.NoFMember? then rest else FMembersText(l.tail, "}" + rest);
    var mark := if l.tail.NoFMember? then '}' else ',';
    MembersBegin(l, "}" + rest);
    ReadFKey(l, "}" + rest, t);
    EndReads(l.after, mark, w);
    FormLonger(l.val, u);
    ReadForm(l.val, u, other);
    if l.tail.FMember? { ReadFMembers(l.tail, rest, w, other); }
    MemberStep(t, Key(PiecesRead(l.key)), FormText(l.val, u), Tree(l.val, false, other), u, mark, w,
               TreeMembers(l.tail, false, other), rest, other);
  }

  // ---- read as meant

  predicate FormKept(f: Form)
    decreases f, 0
  {
    match f
    case FString(ps) => AllKept(ps)
    case FArray(_, items) => ItemsKept(items)
    case FObject(_, members) => MembersKept(members)
    case _ => true
  }

  predicate ItemsKept(l: FItems)
    decreases l, 1
  {
    l.NoFItem? || (FormKept(l.head) && ItemsKept(l.tail))
  }

  predicate MembersKept(l: FMembers)
    decreases l, 1
  {
    l.NoFMember? || (AllKept(l.key) && FormKept(l.val) && MembersKept(l.tail))
  }

  lemma {:induction false} TreeRight(f: Form, other: Strtod)
    requires FormOk(f)
    ensures Tree(f, false, other) == Tree(f, true, other) <==> FormKept(f)
    decreases f, 0
  {
    if f.FString? {
      StringRight(f.ps);
    } else if f.FArray? {
      ItemsRight(f.items, other);
    } else if f.FObject? {
      MembersRight(f.members, other);
    }
  }

  lemma {:induction false} ItemsRight(l: FItems, other: Strtod)
    requires FItemsOk(l)
    ensures TreeItems(l, false, other) == TreeItems(l, true, other) <==> ItemsKept(l)
    decreases l, 1
  {
    if l.FItem? {
      TreeRight(l.head, other);
      ItemsRight(l.tail, other);
    }
  }

  lemma {:induction false} MembersRight(l: FMembers, other: Strtod)
    requires FMembersOk(l)
    ensures TreeMembers(l, false, other) == TreeMembers(l, true, other) <==> MembersKept(l)
    decreases l, 1
  {
    if l.FMember? {
      StringRight(l.key);
      TreeRight(l.val, other);
      MembersRight(l.tail, other);
    }
  }

  lemma ParseBlank(before: string, t: string, other: Strtod)
    requires Blank(before) && t != [] && !IsSpace(t[0])
    ensures Parse(before + t, other) == Parse(t, other)
  {
    SkipBlank(before, t);
    NoBlank(t);
  }

  // On every document of the grammar, with blanks before and after, the parser returns, and it returns the
  // tree that is meant exactly if no string in it has a \b, a \f or a surrogate pair.
  lemma ReadDocument(before: string, f: Form, after: string, other: Strtod)
    requires Blank(before) && FormOk(f) && Blank(after) && Library(other)
    ensures var t := before + FormText(f, after);
            && Parse(t, other) == Done(Tree(f, false, other), after)
            && (Parse(t, other) == Done(Tree(f, true, other), after) <==> FormKept(f))
  {
    FormLonger(f, after);
    ParseBlank(before, FormText(f, after), other);
    ReadForm(f, after, other);
    TreeRight(f, other);
  }

  // The text of a backspace is read as the letter b.
  lemma BackspaceMisread(other: Strtod)
    requires Library(other)
    ensures var f := FString([Short('b')]);
            FormText(f, "") == "\"\\b\"" && Parse(FormText(f, ""), other) == Done(Str("b"), "")
            && Tree(f, true, other) == Str([8 as char])
  {
    var ps := [Short('b')];
    assert ps[1..] == [];
    assert "\"" + "" == "\"";
    assert PiecesText(ps, "\"") == PieceText(Short('b'), PiecesText([], "\"")) == "\\" + (['b'] + "\"");
    assert "\"" + PiecesText(ps, "\"") == "\"\\b\"";
    assert PiecesRead(ps) == "b" + PiecesRead([]) == "b";
    assert PieceMeant(ps[0]) == [8 as char];
    assert PiecesMeant(ps) == [8 as char] + PiecesMeant([]) == [8 as char];
    ReadFString(ps, "", other);
  }
}
