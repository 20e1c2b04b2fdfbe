// The grammar of JSON text is unambiguous: a text has one form at most. So whether a text is read as meant is
// a matter of the text.

module JsonUnique {
  import opened JsonText
  import opened JsonRoundTrip
  import opened JsonGrammar

  // ---- blanks

  lemma BlankUnique(b: string, u: string, c: string, v: string)
    requires Blank(b) && Blank(c) && b + u == c + v
    requires (u == [] || !IsSpace(u[0])) && (v == [] || !IsSpace(v[0]))
    ensures b == c && u == v
  {
    SkipBlank(b, u);
    SkipBlank(c, v);
    assert b == (b + u)[..|b|] && c == (c + v)[..|c|];
  }

  // ---- numbers

  predicate NumChar(c: char) {
    IsDigit(c) || c == '+' || c == '-' || c == '.' || c == 'e' || c == 'E'
  }

  // How many characters of a number the text begins with.
  function RunLen(t: string): (n: nat)
    ensures n <= |t|
  {
    if t != [] && NumChar(t[0]) then 1 + RunLen(t[1..]) else 0
  }

  lemma {:induction false} RunOver(t: string, k: nat)
    requires k <= |t| && forall i :: 0 <= i < k ==> NumChar(t[i])
    ensures RunLen(t) == k + RunLen(t[k..])
  {
    if k > 0 {
      RunOver(t[1..], k - 1);
      assert t[1..][k - 1..] == t[k..];
    } else {
      assert t[0..] == t;
    }
  }

  lemma {:induction false} LeadingDigits(t: string)
    ensures RunLen(t) == DigitCount(t) + RunLen(t[DigitCount(t)..])
  {
    if t != [] && IsDigit(t[0]) {
      LeadingDigits(t[1..]);
      assert t[1..][DigitCount(t[1..])..] == t[DigitCount(t)..];
    } else {
      assert t[0..] == t;
    }
  }

  // The digits from place k on are passed over.
  lemma DigitsRun(t: string, k: nat)
    requires k <= |t| && forall i :: 0 <= i < k ==> NumChar(t[i])
    ensures var d := DigitCount(t[k..]); k + d <= |t| && RunLen(t) == k + d + RunLen(t[k + d..])
  {
    var d := DigitCount(t[k..]);
    RunOver(t, k);
    LeadingDigits(t[k..]);
    assert t[k..][d..] == t[k + d..];
  }

  lemma ExponentRun(t: string)
    requires Exponent(t)
    ensures RunLen(t) == |t|
  {
    if t != [] {
      DigitsRun(t, if |t| > 1 && t[1] in "+-" then 2 else 1);
    }
  }

  lemma FractionRun(t: string)
    requires Fraction(t) && (t == [] || t[0] == '.' || Exponent(t))
    ensures RunLen(t) == |t|
  {
    hide Exponent, RunLen, DigitCount;
    if t != [] && t[0] == '.' {
      var d := DigitCount(t[1..]);
      var u := t[1 + d..];
      assert Exponent(u);
      assert NumChar(t[0]);
      DigitsRun(t, 1);
      ExponentRun(u);
      assert |u| == |t| - 1 - d && RunLen(t) == 1 + d + RunLen(u);
    } else if t != [] {
      ExponentRun(t);
    }
  }

  lemma NumberParts(n: string) returns (k: nat, d: nat, u: string)
    requires Number(n)
    ensures k <= |n| && d == DigitCount(n[k..]) && k + d <= |n| && u == n[k + d..]
    ensures forall i :: 0 <= i < k ==> NumChar(n[i])
    ensures Fraction(u) && (u == [] || u[0] == '.' || Exponent(u))
  {
    hide Exponent, Fraction, RunLen;
    k := if n[0] == '-' then 1 else 0;
    d := DigitCount(n[k..]);
    u := n[k + d..];
  }

  // A number is a run of such characters.
  lemma NumberRun(n: string)
    requires Number(n)
    ensures RunLen(n) == |n|
  {
    hide Number, Exponent, Fraction, RunLen, DigitCount;
    var k, d, u := NumberParts(n);
    DigitsRun(n, k);
    FractionRun(u);
  }

  lemma {:induction false} RunEnds(n: string, rest: string)
    requires RunLen(n) == |n| && Ends(rest)
    ensures RunLen(n + rest) == |n|
  {
    if n == [] {
      assert n + rest == rest;
      assert rest != [] ==> !NumChar(rest[0]);
    } else {
      assert (n + rest)[1..] == n[1..] + rest;
      RunEnds(n[1..], rest);
    }
  }

  lemma NumberUnique(n: string, r: string, m: string, s: string)
    requires Number(n) && Ends(r) && Number(m) && Ends(s) && n + r == m + s
    ensures n == m && r == s
  {
    NumberRun(n);
    NumberRun(m);
    RunEnds(n, r);
    RunEnds(m, s);
    assert n == (n + r)[..|n|] && r == (n + r)[|n|..];
    assert m == (m + s)[..|m|] && s == (m + s)[|m|..];
  }

  // There are readers that take the numbers of the grammar whole: say, one that takes the longest such run.
  lemma SomeLibrary(value: string -> real)
    ensures Library(t => (value(t[..RunLen(t)]), RunLen(t)))
  {
    var other := (t: string) => (value(t[..RunLen(t)]), RunLen(t));
    forall n: string, rest: string | Number(n) && Ends(rest) ensures Takes(other, n, rest) {
      NumberRun(n);
      RunEnds(n, rest);
      assert (n + rest)[..|n|] == n == n[..|n|];
    }
  }

  // ---- strings

  lemma Cut(a: string, x: string, b: string, y: string)
    requires a + x == b + y && |a| == |b|
    ensures a == b && x == y
  {
    assert a == (a + x)[..|a|] && b == (b + y)[..|b|];
    assert x == (a + x)[|a|..] && y == (b + y)[|b|..];
  }

  // The first characters tell the kind of a piece, but for a unit and a pair.
  lemma PieceHead(p: Piece, x: string)
    requires PieceOk(p)
    ensures var t := PieceText(p, x);
            && t != [] && t[0] != '"' && (t[0] == '\\' <==> !p.Raw?)
            && (!p.Raw? ==> |t| > 1 && (t[1] == 'u' <==> !p.Short?))
  {
  }

  lemma UnitTexts(h: string, x: string, k: string, y: string)
    requires FourHex(h) && FourHex(k) && "\\u" + (h + x) == "\\u" + (k + y)
    ensures h == k && x == y
  {
    Cut("\\u", h + x, "\\u", k + y);
    Cut(h, x, k, y);
  }

  function Half(p: Piece): string
    requires p.Unit? || p.Pair?
  {
    if p.Unit? then p.h else p.hi
  }

  function AfterHalf(p: Piece, x: string): string
    requires p.Unit? || p.Pair?
  {
    if p.Unit? then x else "\\u" + (p.lo + x)
  }

  lemma HalvesUnique(p: Piece, x: string, q: Piece, y: string)
    requires PieceOk(p) && PieceOk(q) && !p.Raw? && !p.Short? && !q.Raw? && !q.Short?
    requires PieceText(p, x) == PieceText(q, y)
    ensures Half(p) == Half(q) && AfterHalf(p, x) == AfterHalf(q, y)
  {
    assert PieceText(p, x) == "\\u" + (Half(p) + AfterHalf(p, x));
    assert PieceText(q, y) == "\\u" + (Half(q) + AfterHalf(q, y));
    UnitTexts(Half(p), AfterHalf(p, x), Half(q), AfterHalf(q, y));
  }

  lemma PieceUnique(p: Piece, x: string, q: Piece, y: string)
    requires PieceOk(p) && PieceOk(q) && PieceText(p, x) == PieceText(q, y) && (p.Pair? <==> q.Pair?)
    ensures p == q && x == y
  {
    PieceHead(p, x);
    PieceHead(q, y);
    if p.Raw? {
      Cut([p.c], x, [q.c], y);
    } else if p.Short? {
      Cut("\\", [p.c] + x, "\\", [q.c] + y);
      Cut([p.c], x, [q.c], y);
    } else {
      HalvesUnique(p, x, q, y);
      if p.Pair? { UnitTexts(p.lo, x, q.lo, y); }
    }
  }

  // No unit is the first half of a pair whose second half its successors write.
  lemma NoPair(h: string, ps: seq<Piece>, r: string, q: Piece, y: string)
    requires PiecesOk([Unit(h)] + ps) && PieceOk(q) && q.Pair?
    ensures PieceText(Unit(h), PiecesText(ps, "\"" + r)) != PieceText(q, y)
  {
    var x := PiecesText(ps, "\"" + r);
    assert ([Unit(h)] + ps)[1..] == ps;
    assert ps == [] ==> x[0] == '"';
    if PieceText(Unit(h), x) == PieceText(q, y) {
      HalvesUnique(Unit(h), x, q, y);
      assert x == "\\u" + (q.lo + y);
      if ps != [] {
        assert ([Unit(h)] + ps)[1] == ps[0];
        var z := PiecesText(ps[1..], "\"" + r);
        PieceHead(ps[0], z);
        assert x == "\\u" + (Half(ps[0]) + AfterHalf(ps[0], z));
        UnitTexts(Half(ps[0]), AfterHalf(ps[0], z), q.lo, y);
      }
    }
  }

  // Strings with one text are one string.
  lemma {:induction false} PiecesUnique(ps: seq<Piece>, r: string, qs: seq<Piece>, s: string)
    requires PiecesOk(ps) && PiecesOk(qs) && PiecesText(ps, "\"" + r) == PiecesText(qs, "\"" + s)
    ensures ps == qs && r == s
  {
    if ps == [] || qs == [] {
      if ps != [] { PieceHead(ps[0], PiecesText(ps[1..], "\"" + r)); }
      if qs != [] { PieceHead(qs[0], PiecesText(qs[1..], "\"" + s)); }
      Cut("\"", r, "\"", s);
    } else {
      var x, y := PiecesText(ps[1..], "\"" + r), PiecesText(qs[1..], "\"" + s);
      assert ps == [ps[0]] + ps[1..] && qs == [qs[0]] + qs[1..];
      PieceHead(ps[0], x);
      PieceHead(qs[0], y);
      if ps[0].Unit? && qs[0].Pair? {
        NoPair(ps[0].h, ps[1..], r, qs[0], y);
      } else if qs[0].Unit? && ps[0].Pair? {
        NoPair(qs[0].h, qs[1..], s, ps[0], x);
      } else {
        PieceUnique(ps[0], x, qs[0], y);
        PiecesUnique(ps[1..], r, qs[1..], s);
      }
    }
  }

  // ---- values

  // The first character tells the kind of a value.
  lemma FormHead(f: Form, r: string)
    requires FormOk(f)
    ensures var t := FormText(f, r);
            && t != [] && !IsSpace(t[0]) && t[0] !in "]},:"
            && (f.FNull? <==> t[0] == 'n') && (f.FBool? <==> t[0] in "tf") && (f.FString? <==> t[0] == '"')
            && (f.FBool? ==> (f.b <==> t[0] == 't'))
            && (f.FArray? <==> t[0] == '[') && (f.FObject? <==> t[0] == '{')
  {
    FormLonger(f, r);
  }

  lemma MarkEnds(after: string, mark: char, w: string)
    requires Blank(after) && mark in ",]}"
    ensures Ends(after + ([mark] + w))
  {
    EndReads(after, mark, w);
  }

  lemma WordUnique(f: Form, r: string, g: Form, s: string)
    requires FormOk(f) && FormOk(g) && (f.FNull? || f.FBool?) && FormText(f, r) == FormText(g, s)
    ensures f == g && r == s
  {
    FormHead(f, r);
    FormHead(g, s);
    if f.FNull? {
      Cut("null", r, "null", s);
    } else {
      var w := if f.b then "true" else "false";
      Cut(w, r, w, s);
    }
  }

  // A value with one text is one value, and so is what follows it.
  lemma {:induction false} FormUnique(f: Form, r: string, g: Form, s: string)
    requires FormOk(f) && FormOk(g) && Ends(r) && Ends(s) && FormText(f, r) == FormText(g, s)
    ensures f == g && r == s
    decreases f, 0
  {
    FormHead(f, r);
    FormHead(g, s);
    match f
    case FNumber(n) => NumberUnique(n, r, g.n, s);
    case FString(ps) =>
      Cut("\"", PiecesText(ps, "\"" + r), "\"", PiecesText(g.ps, "\"" + s));
      PiecesUnique(ps, r, g.ps, s);
    case FArray(_, _) => ArrayUnique(f, r, g, s);
    case FObject(_, _) => ObjectUnique(f, r, g, s);
    case _ => WordUnique(f, r, g, s);
  }

  // What stands between the brackets.
  function Inside(f: Form, r: string): string
    requires f.FArray? || f.FObject?
  {
    if f.FArray? then (if f.items.NoFItem? then f.gap + ("]" + r) else FItemsText(f.items, "]" + r))
    else (if f.members.NoFMember? then f.gap + ("}" + r) else FMembersText(f.members, "}" + r))
  }

  lemma {:induction false} ArrayUnique(f: Form, r: string, g: Form, s: string)
    requires FormOk(f) && FormOk(g) && f.FArray? && g.FArray? && FormText(f, r) == FormText(g, s)
    ensures f == g && r == s
    decreases f, 0, 0
  {
    Cut("[", Inside(f, r), "[", Inside(g, s));
    if f.items.FItem? { ItemsBegin(f.items, "]" + r); } else { SkipBlank(f.gap, "]" + r); }
    if g.items.FItem? { ItemsBegin(g.items, "]" + s); } else { SkipBlank(g.gap, "]" + s); }
    if f.items.FItem? && g.items.FItem? {
      ItemsUnique(f.items, r, g.items, s);
    } else if f.items.NoFItem? && g.items.NoFItem? {
      BlankUnique(f.gap, "]" + r, g.gap, "]" + s);
      Cut("]", r, "]", s);
    }
  }

  lemma {:induction false} ObjectUnique(f: Form, r: string, g: Form, s: string)
    requires FormOk(f) && FormOk(g) && f.FObject? && g.FObject? && FormText(f, r) == FormText(g, s)
    ensures f == g && r == s
    decreases f, 0, 0
  {
    Cut("{", Inside(f, r), "{", Inside(g, s));
    if f.members.FMember? { MembersBegin(f.members, "}" + r); } else { SkipBlank(f.gap, "}" + r); }
    if g.members.FMember? { MembersBegin(g.members, "}" + s); } else { SkipBlank(g.gap, "}" + s); }
    if f.members.FMember? && g.members.FMember? {
      MembersUnique(f.members, r, g.members, s);
    } else if f.members.NoFMember? && g.members.NoFMember? {
      BlankUnique(f.gap, "}" + r, g.gap, "}" + s);
      Cut("}", r, "}", s);
    }
  }

  // Blanks, and a mark with what follows: the mark tells whether there is more.
  lemma EndUnique(a: string, m: char, w: string, b: string, n: char, v: string)
    requires Blank(a) && Blank(b) && m in ",]}" && n in ",]}" && a + ([m] + w) == b + ([n] + v)
    ensures a == b && m == n && w == v
  {
    BlankUnique(a, [m] + w, b, [n] + v);
    Cut([m], w, [n], v);
  }

  lemma {:induction false} ItemsUnique(l: FItems, r: string, m: FItems, s: string)
    requires l.FItem? && m.FItem? && FItemsOk(l) && FItemsOk(m) && FItemsText(l, "]" + r) == FItemsText(m, "]" + s)
    ensures l == m && r == s
    decreases l, 1
  {
    var x, y := ItemEnd(l, "]" + r), ItemEnd(m, "]" + s);
    FormHead(l.head, x);
    FormHead(m.head, y);
    BlankUnique(l.before, FormText(l.head, x), m.before, FormText(m.head, y));
    var p, q := if l.tail.NoFItem? then ']' else ',', if m.tail.NoFItem? then ']' else ',';
    var w := if l.tail.NoFItem? then r else FItemsText(l.tail, "]" + r);
    var v := if m.tail.NoFItem? then s else FItemsText(m.tail, "]" + s);
    MarkEnds(l.after, p, w);
    MarkEnds(m.after, q, v);
    FormUnique(l.head, x, m.head, y);
    EndUnique(l.after, p, w, m.after, q, v);
    if l.tail.FItem? { ItemsUnique(l.tail, r, m.tail, s); }
  }

  // The key, the colon and the blanks around it.
  lemma KeyUnique(l: FMembers, x: string, m: FMembers, y: string)
    requires l.FMember? && m.FMember? && FMembersOk(l) && FMembersOk(m) && FMembersText(l, x) == FMembersText(m, y)
    ensures l.before == m.before && l.key == m.key && l.gap == m.gap && l.gap2 == m.gap2
    ensures FormText(l.val, MemberEnd(l, x)) == FormText(m.val, MemberEnd(m, y))
  {
    var t, u := "\"" + PiecesText(l.key, "\"" + AfterKey(l, x)), "\"" + PiecesText(m.key, "\"" + AfterKey(m, y));
    BlankUnique(l.before, t, m.before, u);
    Cut("\"", PiecesText(l.key, "\"" + AfterKey(l, x)), "\"", PiecesText(m.key, "\"" + AfterKey(m, y)));
    PiecesUnique(l.key, AfterKey(l, x), m.key, AfterKey(m, y));
    ColonUnique(l, x, m, y);
  }

  lemma ColonUnique(l: FMembers, x: string, m: FMembers, y: string)
    requires l.FMember? && m.FMember? && FMembersOk(l) && FMembersOk(m) && AfterKey(l, x) == AfterKey(m, y)
    ensures l.gap == m.gap && l.gap2 == m.gap2
    ensures FormText(l.val, MemberEnd(l, x)) == FormText(m.val, MemberEnd(m, y))
  {
    var a, b := FormText(l.val, MemberEnd(l, x)), FormText(m.val, MemberEnd(m, y));
    FormHead(l.val, MemberEnd(l, x));
    FormHead(m.val, MemberEnd(m, y));
    BlankUnique(l.gap, ":" + (l.gap2 + a), m.gap, ":" + (m.gap2 + b));
    Cut(":", l.gap2 + a, ":", m.gap2 + b);
    BlankUnique(l.gap2, a, m.gap2, b);
  }

  lemma {:induction false} MembersUnique(l: FMembers, r: string, m: FMembers, s: string)
    requires l.FMember? && m.FMember? && FMembersOk(l) && FMembersOk(m)
    requires FMembersText(l, "}" + r) == FMembersText(m, "}" + s)
    ensures l == m && r == s
    decreases l, 1
  {
    KeyUnique(l, "}" + r, m, "}" + s);
    var p, q := if l.tail.NoFMember? then '}' else ',', if m.tail.NoFMember? then '}' else ',';
    var w := if l.tail.NoFMember? then r else FMembersText(l.tail, "}" + r);
    var v := if m.tail.NoFMember? then s else FMembersText(m.tail, "}" + s);
    MarkEnds(l.after, p, w);
    MarkEnds(m.after, q, v);
    FormUnique(l.val, MemberEnd(l, "}" + r), m.val, MemberEnd(m, "}" + s));
    EndUnique(l.after, p, w, m.after, q, v);
    if l.tail.FMember? { MembersUnique(l.tail, r, m.tail, s); }
  }

  // ---- documents

  // A value with the blanks around it.
  datatype Doc = Doc(before: string, form: Form, after: string)

  predicate DocOk(d: Doc) {
    Blank(d.before) && FormOk(d.form) && Blank(d.after)
  }

  function DocText(d: Doc): string {
    d.before + FormText(d.form, d.after)
  }

  // A text has one form at most.
  lemma DocUnique(d: Doc, e: Doc)
    requires DocOk(d) && DocOk(e) && DocText(d) == DocText(e)
    ensures d == e
  {
    FormHead(d.form, d.after);
    FormHead(e.form, e.after);
    BlankUnique(d.before, FormText(d.form, d.after), e.before, FormText(e.form, e.after));
    FormUnique(d.form, d.after, e.form, e.after);
  }

  // The texts of RFC 8259 but for control characters, which may stand in strings.
  ghost predicate IsText(t: string) {
    exists d: Doc :: DocOk(d) && DocText(d) == t
  }

  ghost function DocOf(t: string): (d: Doc)
    requires IsText(t)
    ensures DocOk(d) && DocText(d) == t
  {
    var d: Doc :| DocOk(d) && DocText(d) == t;
    d
  }

  lemma DocOfText(d: Doc)
    requires DocOk(d)
    ensures IsText(DocText(d)) && DocOf(DocText(d)) == d
  {
    DocUnique(DocOf(DocText(d)), d);
  }

  // The texts of RFC 8259.
  ghost predicate IsDocument(t: string) {
    IsText(t) && Clean(DocOf(t).form)
  }

  lemma IsDocumentIff(t: string)
    ensures IsDocument(t) <==> exists d: Doc :: DocOk(d) && Clean(d.form) && DocText(d) == t
  {
    if d: Doc :| DocOk(d) && Clean(d.form) && DocText(d) == t { DocOfText(d); }
  }

  // What a text means, and whether none of its strings has a \b, a \f or a surrogate pair.
  ghost function TextMeant(t: string, other: Strtod): Json
    requires IsText(t)
  {
    Tree(DocOf(t).form, true, other)
  }

  ghost predicate TextKept(t: string)
    requires IsText(t)
  {
    FormKept(DocOf(t).form)
  }

  // The parser returns on every text of the grammar, with control characters in its strings or not, and it
  // returns what the text means exactly if no string in it has a \b, a \f or a surrogate pair.
  lemma ReadText(t: string, other: Strtod)
    requires IsText(t) && Library(other)
    ensures Parse(t, other).Done? && Blank(Parse(t, other).rest)
    ensures Parse(t, other).val == TextMeant(t, other) <==> TextKept(t)
  {
    var d := DocOf(t);
    ReadDocument(d.before, d.form, d.after, other);
  }

  // The two halves of a pair, written as such, are no text of two units.
  lemma PairIsOne()
    ensures !PiecesOk([Unit("d83d"), Unit("de00")]) && PiecesOk([Pair("d83d", "de00")])
    ensures PiecesText([Unit("d83d"), Unit("de00")], "") == PiecesText([Pair("d83d", "de00")], "")
  {
    var us, ps := [Unit("d83d"), Unit("de00")], [Pair("d83d", "de00")];
    assert us[1..] == [Unit("de00")] && us[1..][1..] == [] && ps[1..] == [];
    assert Four("d83d") == 0xD83D && Four("de00") == 0xDE00;
  }
}
