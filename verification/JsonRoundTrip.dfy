// The parser reads back every tree the builder can write, and exactly which keys survive.

module JsonRoundTrip {
  import opened JsonText

  // ---- integers

  lemma {:induction false} DigitsValue(n: nat)
    ensures forall i :: 0 <= i < |Digits(n)| ==> IsDigit(Digits(n)[i])
    ensures Value(Digits(n)) == n
  {
    var s := Digits(n);
    if n < 10 {
      assert s[..0] == [];
    } else {
      DigitsValue(n / 10);
      assert s[..|s| - 1] == Digits(n / 10);
    }
  }

  lemma {:induction false} CountDigits(ds: string, rest: string)
    requires forall i :: 0 <= i < |ds| ==> IsDigit(ds[i])
    requires rest == [] || !IsDigit(rest[0])
    ensures DigitCount(ds + rest) == |ds|
  {
    if ds == [] {
      assert ds + rest == rest;
    } else {
      assert (ds + rest)[1..] == ds[1..] + rest;
      CountDigits(ds[1..], rest);
    }
  }

  // What may follow a value inside a tree.
  ghost predicate Delimited(rest: string) {
    rest == [] || rest[0] in ",]}"
  }

  lemma ReadInteger(ds: string, k: nat, t: string, rest: string, other: Strtod)
    requires ds != [] && (forall i :: 0 <= i < |ds| ==> IsDigit(ds[i])) && Value(ds) <= EXACT
    requires rest == [] || (!IsDigit(rest[0]) && !GoesOn(rest[0]))
    requires k <= 1 <= |t| && t[k..] == ds + rest && k == if t[0] == '-' then 1 else 0
    ensures ReadNumber(t, other) == (if k == 1 then -(Value(ds) as real) else Value(ds) as real, k + |ds|)
  {
    CountDigits(ds, rest);
    var d := DigitCount(t[k..]);
    assert d == |ds| && t[k..][..d] == ds;
    assert k + d < |t| ==> t[k + d] == t[k..][d] == rest[0];
  }

  lemma DecimalText(v: int, rest: string)
    ensures var m, k := if v < 0 then -v else v, if v < 0 then 1 else 0;
            var t := Decimal(v) + rest;
            && t[k..] == Digits(m) + rest && (t[0] == '-' <==> v < 0) && |Decimal(v)| == k + |Digits(m)|
  {
    var m := if v < 0 then -v else v;
    DigitsValue(m);
    assert IsDigit(Digits(m)[0]);
    if v < 0 {
      assert (Decimal(v) + rest)[1..] == Digits(m) + rest;
    } else {
      assert (Decimal(v) + rest)[0] == Digits(m)[0];
    }
  }

  lemma ReadDecimal(v: int, rest: string, other: Strtod)
    requires -EXACT <= v <= EXACT && Delimited(rest)
    ensures ReadNumber(Decimal(v) + rest, other) == (v as real, |Decimal(v)|)
  {
    var m := if v < 0 then -v else v;
    DecimalText(v, rest);
    DigitsValue(m);
    ReadInteger(Digits(m), if v < 0 then 1 else 0, Decimal(v) + rest, rest, other);
  }

  // ---- trees

  lemma NoBlank(t: string)
    requires t == [] || !IsSpace(t[0])
    ensures SkipWs(t) == t
  {
  }

  lemma FirstOfDecimal(v: int)
    ensures Decimal(v)[0] == '-' || IsDigit(Decimal(v)[0])
  {
    DigitsValue(if v < 0 then -v else v);
  }

  // A value's text begins with its own mark, never a blank or a closing bracket.
  lemma FirstOf(v: Json)
    requires Writable(v)
    ensures Text(v) != [] && (Text(v)[0] in "ntf\"[{-" || IsDigit(Text(v)[0]))
  {
    if v.Num? { FirstOfDecimal(v.n.Floor); }
  }

  lemma NumStep(t: string, other: Strtod)
    requires t != [] && (t[0] == '-' || IsDigit(t[0]))
    ensures var n := ReadNumber(t, other); Parse(t, other) == Done(Num(n.0), t[n.1..])
  {
    assert !IsSpace(t[0]) && t[0] != '"' && t[0] != '[' && t[0] != '{';
    NoBlank(t);
    assert SkipWs(t) == t;
    NotAWord(t);
  }

  lemma ReadNum(v: int, rest: string, other: Strtod)
    requires -EXACT <= v <= EXACT && Delimited(rest)
    ensures Parse(Decimal(v) + rest, other) == Done(Num(v as real), rest)
  {
    var d := Decimal(v);
    FirstOfDecimal(v);
    ReadDecimal(v, rest, other);
    NumStep(d + rest, other);
  }

  lemma ReadStr(s: string, rest: string, other: Strtod)
    ensures Parse("\"" + EscapedAll(s) + "\"" + rest, other) == Done(Str(s), rest)
  {
    var t := "\"" + EscapedAll(s) + "\"" + rest;
    ReadEscapedAll(s, rest);
    assert t[1..] == EscapedAll(s) + "\"" + rest;
    StrStep(t, other);
  }

  lemma StrStep(t: string, other: Strtod)
    requires t != [] && t[0] == '"'
    ensures var s := ReadString(t[1..]); Parse(t, other) == Done(Str(s.0), s.1)
  {
    NoBlank(t);
  }

  lemma ReadLeaf(v: Json, rest: string, other: Strtod)
    requires Writable(v) && !v.Arr? && !v.Obj? && Delimited(rest)
    ensures Parse(Text(v) + rest, other) == Done(v, rest)
  {
    var t := Text(v) + rest;
    if v.Num? {
      ReadNum(v.n.Floor, rest, other);
    } else if v.Str? {
      ReadStr(v.s, rest, other);
    } else {
      var k := |Text(v)|;
      assert t[..k] == Text(v) && t[k..] == rest;
    }
  }

  lemma NotAWord(t: string)
    requires t != [] && (t[0] == '-' || IsDigit(t[0]))
    ensures !StartsWith(t, "null") && !StartsWith(t, "true") && !StartsWith(t, "false")
  {
    if |t| >= 4 { assert t[..4][0] == t[0]; }
    if |t| >= 5 { assert t[..5][0] == t[0]; }
  }

  // Reading an opening bracket, given how the rest reads.
  lemma ArrStep(u: string, l: Items, rest: string, other: Strtod)
    requires u != [] && !IsSpace(u[0])
    requires if u[0] == ']' then l == NoItem && u[1..] == rest else ParseItems(u, other) == Done(l, rest)
    ensures Parse("[" + u, other) == Done(Arr(l), rest)
  {
    var t := "[" + u;
    assert t[1..] == u;
    NoBlank(t);
    NoBlank(u);
  }

  lemma ObjStep(u: string, l: Members, rest: string, other: Strtod)
    requires u != [] && !IsSpace(u[0])
    requires if u[0] == '}' then l == NoMember && u[1..] == rest else ParseMembers(u, other) == Done(l, rest)
    ensures Parse("{" + u, other) == Done(Obj(l), rest)
  {
    var t := "{" + u;
    assert t[1..] == u;
    NoBlank(t);
    NoBlank(u);
  }

  // The parser undoes the builder on every tree, whatever follows it in the text.
  lemma {:induction false} ReadBack(v: Json, rest: string, other: Strtod)
    requires Writable(v) && Delimited(rest)
    ensures Parse(Text(v) + rest, other) == Done(v, rest)
    decreases v, 0
  {
    if v.Arr? {
      var u := ItemsText(v.items) + "]" + rest;
      assert Text(v) + rest == "[" + u;
      if v.items.Item? {
        ItemsFirst(v.items);
        ReadBackItems(v.items, rest, other);
      }
      ArrStep(u, v.items, rest, other);
    } else if v.Obj? {
      var u := MembersText(v.members) + "}" + rest;
      assert Text(v) + rest == "{" + u;
      if v.members.Member? {
        assert u[0] == '"';
        ReadBackMembers(v.members, rest, other);
      }
      ObjStep(u, v.members, rest, other);
    } else {
      ReadLeaf(v, rest, other);
    }
  }

  lemma ItemsFirst(l: Items)
    requires l.Item? && WritableItems(l)
    ensures ItemsText(l) != [] && Text(l.head) != [] && ItemsText(l)[0] == Text(l.head)[0]
    ensures !IsSpace(ItemsText(l)[0]) && ItemsText(l)[0] != ']'
  {
    FirstOf(l.head);
  }

  // Reading one item, given how its value and the rest read; mark is the comma or the bracket after it.
  lemma ItemStep(t: string, v: Json, u: string, mark: char, w: string, l: Items, rest: string, other: Strtod)
    requires Parse(SkipWs(t), other) == Done(v, u) && |u| < |t| && |w| < |u| && SkipWs(u) == [mark] + w
    requires if mark == ']' then l == NoItem && w == rest else mark == ',' && ParseItems(w, other) == Done(l, rest)
    ensures ParseItems(t, other) == Done(Item(v, l), rest)
  {
    assert SkipWs(u)[1..] == w;
  }

  lemma {:induction false} ReadBackItems(l: Items, rest: string, other: Strtod)
    requires l.Item? && WritableItems(l)
    ensures ParseItems(ItemsText(l) + "]" + rest, other) == Done(l, rest)
    decreases l, 1
  {
    FirstOf(l.head);
    var w := if l.tail.NoItem? then rest else ItemsText(l.tail) + "]" + rest;
    var mark := if l.tail.NoItem? then ']' else ',';
    var u := [mark] + w;
    assert ItemsText(l) + "]" + rest == Text(l.head) + u;
    ReadBack(l.head, u, other);
    if l.tail.Item? {
      ReadBackItems(l.tail, rest, other);
    }
    NoBlank(Text(l.head) + u);
    NoBlank(u);
    ItemStep(Text(l.head) + u, l.head, u, mark, w, l.tail, rest, other);
  }

  lemma ReadBackKey(k: string, t: string)
    requires PlainKey(k) && t != [] && !IsSpace(t[0])
    ensures ReadKey(KeyText(Key(k)) + t) == (Key(k), t)
  {
    var all := KeyText(Key(k)) + t;
    assert all[1..] == k + "\"" + (":" + t);
    ReadPlain(k, ":" + t);
    NoBlank(all);
    NoBlank(":" + t);
    assert (":" + t)[1..] == t;
    NoBlank(t);
  }

  // Reading one member, given how its key, its value and the rest read.
  lemma MemberStep(t: string, k: Key, x: string, v: Json, u: string, mark: char, w: string, l: Members,
                   rest: string, other: Strtod)
    requires ReadKey(t) == (k, x) && Parse(x, other) == Done(v, u)
    requires |u| < |t| && |w| < |u| && SkipWs(u) == [mark] + w
    requires if mark == '}' then l == NoMember && w == rest else mark == ',' && ParseMembers(w, other) == Done(l, rest)
    ensures ParseMembers(t, other) == Done(Member(k, v, l), rest)
  {
    assert SkipWs(u)[1..] == w;
  }

  lemma MembersCons(l: Members, w: string, u: string, rest: string)
    requires l.Member? && w == if l.tail.NoMember? then rest else MembersText(l.tail) + "}" + rest
    requires u == [if l.tail.NoMember? then '}' else ','] + w
    ensures MembersText(l) + "}" + rest == KeyText(l.key) + (Text(l.val) + u)
  {
  }

  lemma {:induction false} ReadBackMembers(l: Members, rest: string, other: Strtod)
    requires l.Member? && WritableMembers(l)
    ensures ParseMembers(MembersText(l) + "}" + rest, other) == Done(l, rest)
    decreases l, 1
  {
    FirstOf(l.val);
    var w := if l.tail.NoMember? then rest else MembersText(l.tail) + "}" + rest;
    var mark := if l.tail.NoMember? then '}' else ',';
    var u := [mark] + w;
    MembersCons(l, w, u, rest);
    ReadBack(l.val, u, other);
    if l.tail.Member? {
      ReadBackMembers(l.tail, rest, other);
    }
    NoBlank(u);
    ReadBackKey(l.key.s, Text(l.val) + u);
    MemberStep(KeyText(l.key) + (Text(l.val) + u), l.key, Text(l.val) + u, l.val, u, mark, w, l.tail, rest, other);
  }

  // A whole document.
  lemma RoundTrip(v: Json, other: Strtod)
    requires Writable(v)
    ensures Parse(Text(v), other) == Done(v, "")
  {
    ReadBack(v, "", other);
    assert Text(v) + "" == Text(v);
  }

  // So different trees have different texts.
  lemma TextInjective(v: Json, w: Json, other: Strtod)
    requires Writable(v) && Writable(w) && Text(v) == Text(w)
    ensures v == w
  {
    RoundTrip(v, other);
    RoundTrip(w, other);
  }

  // ---- keys are written as they are: which of them can be read back

  // A string never decodes to more than its text, and to less when it has an escape before its end.
  lemma {:induction false} Shrinks(t: string)
    ensures |ReadString(t).0| <= |t| - |ReadString(t).1|
    ensures ReadString(t).1 != [] ==> |ReadString(t).0| + 1 <= |t| - |ReadString(t).1|
    decreases |t|
  {
    if t == [] || t[0] == '"' {
    } else if t[0] == '\\' {
      UnescapeShrinks(t[1..]);
      Shrinks(Unescape(t[1..]).1);
    } else {
      Shrinks(t[1..]);
    }
  }

  lemma UnescapeShrinks(t: string)
    ensures var e := Unescape(t); |e.0| <= 1 + |t| - |e.1| && (t != [] ==> |e.0| <= |t| - |e.1|)
  {
    if t != [] && t[0] == 'u' {
      HexShrinks(t[1..], 4, 0);
    }
  }

  lemma {:induction false} HexShrinks(t: string, n: nat, cp: nat)
    requires n <= 4
    requires (n == 4 ==> cp == 0) && (n == 3 ==> cp < 16) && (n == 2 ==> cp < 256) && (n == 1 ==> cp < 4096)
    requires n == 0 ==> cp < 65536
    ensures var h := Hex(t, n, cp);
            h.0 < 65536 && |Utf8Of(h.0)| <= 1 + (4 - n) + |t| - |h.1|
    decreases n
  {
    if n > 0 && t != [] { HexShrinks(t[1..], n - 1, cp * 16 + HexVal(t[0])); }
  }

  // A key is read back, up to its closing quote, exactly when it holds no quote and no backslash.
  lemma {:induction false} KeySurvives(k: string, rest: string)
    requires rest != []
    ensures ReadString(k + "\"" + rest) == (k, rest) <==> PlainKey(k)
  {
    var t := k + "\"" + rest;
    if PlainKey(k) {
      ReadPlain(k, rest);
    } else if k[0] == '"' {
      assert t[0] == '"';
    } else if k[0] == '\\' {
      assert t[0] == '\\';
      UnescapeShrinks(t[1..]);
      Shrinks(Unescape(t[1..]).1);
    } else {
      var u := k[1..] + "\"" + rest;
      assert t[1..] == u && t[0] == k[0];
      KeySurvives(k[1..], rest);
      assert ReadString(t) == ([k[0]] + ReadString(u).0, ReadString(u).1);
      assert ([k[0]] + ReadString(u).0)[1..] == ReadString(u).0;
    }
  }

  // A quote in a key ends it early.
  lemma QuoteEndsKey(rest: string)
    ensures ReadString("a\"b" + "\"" + rest) == ("a", "b\"" + rest)
  {
    var t := "a\"b" + "\"" + rest;
    assert t[1..][0] == '"' && t[1..][1..] == "b\"" + rest;
    assert ReadString(t[1..]) == ("", "b\"" + rest);
    assert ['a'] + "" == "a";
  }
}
