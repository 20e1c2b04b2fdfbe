// On which input the parser returns: exactly when a single pass over the text, with nothing but the stack of
// open brackets, meets no place where an array or object loop would stand still.

module JsonReturns {
  import opened JsonText
  import opened JsonRoundTrip

  datatype Open = Array | Object

  function Closer(k: Open): char {
    if k.Array? then ']' else '}'
  }

  // The length of the word or number at the head of the text; zero if there is none.
  function ScalarLen(t: string, other: Strtod): (n: nat)
    requires t != []
    ensures n <= |t|
  {
    if StartsWith(t, "null") || StartsWith(t, "true") then 4
    else if StartsWith(t, "false") then 5
    else if t[0] == '-' || IsDigit(t[0]) then ReadNumber(t, other).1
    else 0
  }

  // No value begins here: no string, bracket, word or number.
  predicate BeginsNone(t: string, other: Strtod)
    requires t != []
  {
    t[0] !in "\"[{" && ScalarLen(t, other) == 0
  }

  // The pass over the text: blanks, commas, colons inside objects and values are taken, brackets opened and
  // closed, until the text or the outermost bracket ends.
  predicate Passes(t: string, open: seq<Open>, other: Strtod)
    decreases |t|
  {
    var u := SkipWs(t);
    open == [] || u == [] ||
    var k := open[|open| - 1];
    if u[0] == Closer(k) then Passes(u[1..], open[..|open| - 1], other)
    else if u[0] == ',' || (k.Object? && u[0] == ':') then Passes(u[1..], open, other)
    else if u[0] == '"' then Passes(ReadString(u[1..]).1, open, other)
    else if u[0] == '[' then Passes(u[1..], open + [Array], other)
    else if u[0] == '{' then Passes(u[1..], open + [Object], other)
    else !BeginsNone(u, other) && Passes(u[ScalarLen(u, other)..], open, other)
  }

  predicate DocumentPasses(t: string, other: Strtod) {
    var u := SkipWs(t);
    u != [] && u[0] in "[{" ==> Passes(u[1..], [if u[0] == '[' then Array else Object], other)
  }

  lemma SkipTwice(t: string)
    ensures SkipWs(SkipWs(t)) == SkipWs(t)
  {
    NoBlank(SkipWs(t));
  }

  lemma PassesSkip(t: string, open: seq<Open>, other: Strtod)
    ensures Passes(t, open, other) == Passes(SkipWs(t), open, other)
  {
    SkipTwice(t);
  }

  lemma ParseSkip(t: string, other: Strtod)
    ensures Parse(t, other) == Parse(SkipWs(t), other)
  {
    SkipTwice(t);
  }

  // A word, a number or none.
  lemma ScalarParse(u: string, other: Strtod)
    requires u != [] && !IsSpace(u[0]) && u[0] !in "\"[{"
    ensures Parse(u, other).Done? && Parse(u, other).rest == u[ScalarLen(u, other)..]
  {
    NoBlank(u);
    assert u[0..] == u;
  }

  // No word and no number begins with a mark of punctuation.
  lemma MarksBeginNone(u: string, other: Strtod)
    requires u != [] && u[0] in "]},:"
    ensures ScalarLen(u, other) == 0
  {
    if |u| >= 4 { assert u[..4][0] == u[0]; }
    if |u| >= 5 { assert u[..5][0] == u[0]; }
  }

  // A value that is not bracketed, or none: the pass takes what the parser takes.
  lemma ScalarScan(t: string, open: seq<Open>, other: Strtod)
    requires open != [] && (SkipWs(t) == [] || SkipWs(t)[0] !in "[{")
    ensures var a := Parse(t, other);
            a.Done? && Passes(t, open, other) == Passes(a.rest, open, other)
  {
    var u := SkipWs(t);
    PassesSkip(t, open, other);
    ParseSkip(t, other);
    if u == [] {
    } else if u[0] == '"' {
      NoBlank(u);
    } else {
      ScalarParse(u, other);
      if ScalarLen(u, other) == 0 {
        assert u[0..] == u;
      } else if u[0] in "]},:" {
        MarksBeginNone(u, other);
      } else {
        NoBlank(u);
      }
    }
  }

  // The pass over a value comes to what is left after it, or to a stop where the parser does not return.
  lemma {:induction false} ValueScan(t: string, open: seq<Open>, other: Strtod)
    requires open != []
    ensures var a := Parse(t, other);
            Passes(t, open, other) == (a.Done? && Passes(a.rest, open, other))
    decreases |t|, 0
  {
    var x := SkipWs(t);
    PassesSkip(t, open, other);
    if x != [] && x[0] in "[{" {
      var k := if x[0] == '[' then Array else Object;
      var u := SkipWs(x[1..]);
      assert Passes(x, open, other) == Passes(x[1..], open + [k], other);
      PassesSkip(x[1..], open + [k], other);
      assert (open + [k])[..|open|] == open;
      if u != [] && u[0] == Closer(k) {
        SkipTwice(x[1..]);
      } else if k.Array? {
        ItemsScan(u, open, other);
      } else {
        MembersScan(u, open, other);
      }
    } else {
      ScalarScan(t, open, other);
    }
  }

  // A value that leaves all of the text is none.
  lemma StandsStill(t: string, other: Strtod)
    requires t != [] && SkipWs(t) == t && Parse(t, other).Done? && |Parse(t, other).rest| == |t|
    ensures BeginsNone(t, other) && Parse(t, other).rest == t
  {
    if ScalarLen(t, other) == 0 { assert t[0..] == t; }
  }

  lemma {:induction false} ItemsScan(t: string, open: seq<Open>, other: Strtod)
    ensures var l := ParseItems(t, other);
            Passes(t, open + [Array], other) == (l.Done? && Passes(l.rest, open, other))
    decreases |t|, 1
  {
    var all := open + [Array];
    var a := Parse(SkipWs(t), other);
    assert all[..|open|] == open;
    PassesSkip(t, all, other);
    ValueScan(SkipWs(t), all, other);
    if a.Done? {
      var u := SkipWs(a.rest);
      PassesSkip(a.rest, all, other);
      SkipTwice(a.rest);
      if u != [] && u[0] != ']' {
        var w := if u[0] == ',' then u[1..] else u;
        assert Passes(u, all, other) == Passes(w, all, other);
        if |w| < |t| {
          ItemsScan(w, open, other);
        } else {
          StandsStill(t, other);
        }
      }
    }
  }

  lemma KeyScan(t: string, open: seq<Open>, other: Strtod)
    requires open != [] && open[|open| - 1] == Object
    ensures Passes(t, open, other) == Passes(ReadKey(t).1, open, other)
    ensures ReadKey(t).1 == SkipWs(ReadKey(t).1)
    ensures |ReadKey(t).1| == |t| && t != [] ==> ReadKey(t).1 == t && t[0] != '"' && t[0] != ':'
  {
    var u := SkipWs(t);
    var k := if u != [] && u[0] == '"' then ReadString(u[1..]).1 else u;
    var v := SkipWs(k);
    var w := if v != [] && v[0] == ':' then v[1..] else v;
    PassesSkip(t, open, other);
    SkipTwice(t);
    assert Passes(u, open, other) == Passes(k, open, other);
    PassesSkip(k, open, other);
    SkipTwice(k);
    assert Passes(v, open, other) == Passes(w, open, other);
    PassesSkip(w, open, other);
    SkipTwice(w);
    SkipShorter(t);
    SkipShorter(k);
    SkipShorter(w);
  }

  lemma SkipShorter(t: string)
    ensures |SkipWs(t)| == |t| ==> SkipWs(t) == t
  {
  }

  lemma {:induction false} MembersScan(t: string, open: seq<Open>, other: Strtod)
    ensures var l := ParseMembers(t, other);
            Passes(t, open + [Object], other) == (l.Done? && Passes(l.rest, open, other))
    decreases |t|, 1
  {
    var all := open + [Object];
    var x := ReadKey(t).1;
    var a := Parse(x, other);
    assert all[..|open|] == open;
    KeyScan(t, all, other);
    ValueScan(x, all, other);
    if a.Done? {
      var u := SkipWs(a.rest);
      PassesSkip(a.rest, all, other);
      SkipTwice(a.rest);
      if u != [] && u[0] != '}' {
        var w := if u[0] == ',' then u[1..] else u;
        assert Passes(u, all, other) == Passes(w, all, other);
        if |w| < |t| {
          MembersScan(w, open, other);
        } else {
          StandsStill(x, other);
        }
      }
    }
  }

  // The parser returns exactly on the texts the pass gets through.
  lemma ReturnsIff(t: string, other: Strtod)
    ensures Parse(t, other).Done? <==> DocumentPasses(t, other)
  {
    var x := SkipWs(t);
    if x != [] && x[0] in "[{" {
      var k := if x[0] == '[' then Array else Object;
      var u := SkipWs(x[1..]);
      PassesSkip(x[1..], [k], other);
      assert [] + [k] == [k] && [k][..0] == [];
      if u != [] && u[0] == Closer(k) {
        SkipTwice(x[1..]);
      } else if k.Array? {
        ItemsScan(u, [], other);
      } else {
        MembersScan(u, [], other);
      }
    } else {
      ScalarScan(t, [Array], other);
    }
  }

  // ---- one turn of the loops

  // A turn of the array loop whose value is read leaves the place where it was exactly if no value begins
  // there, nor a comma nor the closing bracket; and the loop goes on for ever.
  lemma ArrayTurn(t: string, other: Strtod)
    requires t != [] && !IsSpace(t[0]) && Parse(t, other).Done?
    ensures var u := SkipWs(Parse(t, other).rest);
            u == t && u[0] !in "]," <==> BeginsNone(t, other) && t[0] !in "],"
    ensures BeginsNone(t, other) && t[0] !in "]," ==> ParseItems(t, other).Diverges?
  {
    var a := Parse(t, other);
    NoBlank(t);
    SkipShorter(a.rest);
    if SkipWs(a.rest) == t { StandsStill(t, other); }
    if BeginsNone(t, other) {
      assert a.rest == t by { assert t[0..] == t; }
    }
  }

  // So with the object loop, where a colon moves it too.
  lemma ObjectTurn(t: string, other: Strtod)
    requires t != [] && !IsSpace(t[0]) && BeginsNone(t, other) && t[0] !in "}:,"
    ensures ParseMembers(t, other).Diverges?
  {
    NoBlank(t);
    assert ReadKey(t).1 == t;
    assert t[0..] == t;
    assert Parse(t, other).Done? && Parse(t, other).rest == t;
  }

  // An array or object that opens on such a place is never read.
  lemma NeverReturns(t: string, blanks: string, u: string, other: Strtod)
    requires t != [] && t[0] in "[{" && t[1..] == blanks + u && SkipWs(blanks + u) == u
    requires u != [] && BeginsNone(u, other) && u[0] !in (if t[0] == '[' then "]," else "}:,")
    ensures Parse(t, other).Diverges?
  {
    NoBlank(t);
    assert !IsSpace(u[0]);
    if t[0] == '[' {
      ValueScan(u, [Array], other);
      assert !Passes(u, [Array], other) by { NoBlank(u); }
      ReturnsIff(t, other);
      PassesSkip(t[1..], [Array], other);
    } else {
      ReturnsIff(t, other);
      PassesSkip(t[1..], [Object], other);
      assert !Passes(u, [Object], other) by { NoBlank(u); }
    }
  }

  lemma OpenBracket(other: Strtod)
    ensures Parse("[x", other) == Diverges && Parse("{x", other) == Diverges
  {
    var u := "x";
    NoBlank(u);
    assert "[x"[1..] == "" + u && "{x"[1..] == "" + u && "" + u == u;
    NeverReturns("[x", "", u, other);
    NeverReturns("{x", "", u, other);
  }
}
