// The parser's code: one position moved along the text, reading exactly what the text means.

module JsonParser {
  import opened JsonText
  import opened JsonRoundTrip

  // What is left of the text from place i; the place just past the terminator counts as its end.
  function From(src: string, i: nat): string {
    if i <= |src| then src[i..] else []
  }

  lemma FromStep(src: string, i: nat)
    ensures i < |src| ==> From(src, i) != [] && From(src, i)[0] == src[i] && From(src, i)[1..] == From(src, i + 1)
    ensures i >= |src| ==> From(src, i) == [] == From(src, i + 1)
    ensures |From(src, i)| == if i <= |src| then |src| - i else 0
  {
  }

  lemma FromWord(src: string, i: nat, w: string)
    requires i <= |src|
    ensures StartsWith(From(src, i), w) <==> i + |w| <= |src| && src[i..i + |w|] == w
    ensures i + |w| <= |src| ==> From(src, i)[|w|..] == From(src, i + |w|)
  {
    if i + |w| <= |src| {
      assert From(src, i)[..|w|] == src[i..i + |w|];
    }
  }

  method SkipBlanks(src: string, pos: nat) returns (p: nat)
    requires pos <= |src| + 1
    ensures pos <= p <= |src| + 1 && (pos <= |src| ==> p <= |src|) && From(src, p) == SkipWs(From(src, pos))
  {
    p := pos;
    while p < |src| && IsSpace(src[p])
      invariant pos <= p <= |src| + 1 && (pos <= |src| ==> p <= |src|) && SkipWs(From(src, p)) == SkipWs(From(src, pos))
    {
      FromStep(src, p);
      p := p + 1;
    }
    FromStep(src, p);
  }

  // Four hexadecimal digits, fewer at the end of the text; the place is left on the last one read.
  method HexDigits(src: string, pos: nat) returns (cp: nat, p: nat)
    requires pos < |src|
    ensures pos <= p < |src| && (cp, From(src, p + 1)) == Hex(From(src, pos + 1), 4, 0)
  {
    cp, p := 0, pos;
    ghost var want := Hex(From(src, pos + 1), 4, 0);
    var k: nat := 4;
    while k > 0
      invariant k <= 4 && pos <= p < |src|
      invariant Hex(From(src, p + 1), k, cp) == want
    {
      FromStep(src, p + 1);
      if p + 1 >= |src| { break; }
      HexStep(From(src, p + 1), k, cp);
      p := p + 1;
      cp := cp * 16 + HexVal(src[p]);
      k := k - 1;
    }
  }

  lemma HexStep(t: string, n: nat, cp: nat)
    requires n > 0 && t != []
    ensures Hex(t, n, cp) == Hex(t[1..], n - 1, cp * 16 + HexVal(t[0]))
  {
  }

  method PutChar(out: array<char>, n: nat, c: char)
    requires n < out.Length
    modifies out
    ensures out[..n + 1] == old(out[..n]) + [c]
  {
    ghost var before := out[..n];
    out[n] := c;
    assert out[..n] == before;
  }

  method PutUtf8(out: array<char>, n: nat, cp: nat) returns (m: nat)
    requires cp < 0x10000 && n + |Utf8Of(cp)| <= out.Length
    modifies out
    ensures m == n + |Utf8Of(cp)| && out[..m] == old(out[..n]) + Utf8Of(cp)
  {
    if cp < 0x80 {
      PutChar(out, n, Byte(cp));
      return n + 1;
    }
    if cp < 0x800 {
      PutChar(out, n, Byte(0xC0 + cp / 64));
      PutChar(out, n + 1, Byte(0x80 + cp % 64));
      return n + 2;
    }
    PutChar(out, n, Byte(0xE0 + cp / 4096));
    PutChar(out, n + 1, Byte(0x80 + cp / 64 % 64));
    PutChar(out, n + 2, Byte(0x80 + cp % 64));
    return n + 3;
  }

  // What follows a backslash; the place is left on the last character used, the terminator at the end.
  method EscapeInto(src: string, pos: nat, out: array<char>, n: nat) returns (m: nat, p: nat)
    requires pos <= |src| && n + 1 + |From(src, pos)| <= out.Length
    modifies out
    ensures pos <= p <= |src| && From(src, p + 1) == Unescape(From(src, pos)).1
    ensures m == n + |Unescape(From(src, pos)).0| && m <= out.Length
    ensures out[..m] == old(out[..n]) + Unescape(From(src, pos)).0
  {
    p := pos;
    FromStep(src, pos);
    var c := if pos < |src| then src[pos] else '\0';
    if c == 'n' { PutChar(out, n, '\n'); return n + 1, p; }
    if c == 'r' { PutChar(out, n, '\r'); return n + 1, p; }
    if c == 't' { PutChar(out, n, '\t'); return n + 1, p; }
    if c == 'u' {
      var cp;
      cp, p := HexDigits(src, pos);
      HexBound(From(src, pos + 1), 4, 0);
      UnescapeShrinks(From(src, pos));
      m := PutUtf8(out, n, cp);
      return m, p;
    }
    PutChar(out, n, c);
    return n + 1, p;
  }

  // A string; the room taken for it, what is left of the text and one more, always suffices.
  method ParseString(src: string, pos: nat) returns (k: Key, p: nat)
    requires pos <= |src|
    ensures pos <= p <= |src| + 1
    ensures var t := From(src, pos);
            if t != [] && t[0] == '"'
            then k == Key(ReadString(t[1..]).0) && From(src, p) == ReadString(t[1..]).1 && p > pos
            else k == NoKey && p == pos
  {
    FromStep(src, pos);
    if pos == |src| || src[pos] != '"' { return NoKey, pos; }
    var start := pos + 1;
    var out := new char[|src| - start + 1](_ => '\0');
    var n: nat := 0;
    p := start;
    ghost var t0 := From(src, start);
    assert Reading(t0, out[..0], t0) by { assert [] + ReadString(t0).0 == ReadString(t0).0; }
    while p < |src| && src[p] != '"'
      invariant start <= p <= |src| + 1 && n + |From(src, p)| <= |src| - start && fresh(out)
      invariant Reading(t0, out[..n], From(src, p))
      decreases |src| + 1 - p
    {
      p, n := StringStep(src, p, out, n, t0);
    }
    FromStep(src, p);
    if p < |src| { p := p + 1; }
    k := Key(out[..n]);
  }

  // What is read of a string so far, and the rest of it.
  ghost predicate Reading(t0: string, out: string, t: string) {
    ReadString(t0) == (out + ReadString(t).0, ReadString(t).1)
  }

  lemma StringEscape(t: string, e: string, u: string)
    requires t != [] && t[0] == '\\' && Unescape(t[1..]) == (e, u)
    ensures ReadString(t) == (e + ReadString(u).0, ReadString(u).1)
  {
  }

  lemma ReadingEscape(t0: string, out: string, t: string, e: string, u: string)
    requires Reading(t0, out, t) && t != [] && t[0] == '\\' && Unescape(t[1..]) == (e, u)
    ensures Reading(t0, out + e, u)
  {
    StringEscape(t, e, u);
    assert out + e + ReadString(u).0 == out + (e + ReadString(u).0);
  }

  lemma ReadingChar(t0: string, out: string, t: string)
    requires Reading(t0, out, t) && t != [] && t[0] != '\\' && t[0] != '"'
    ensures Reading(t0, out + [t[0]], t[1..])
  {
    assert out + [t[0]] + ReadString(t[1..]).0 == out + ([t[0]] + ReadString(t[1..]).0);
  }

  // One character of a string.
  method StringStep(src: string, pos: nat, out: array<char>, n: nat, ghost t0: string) returns (p: nat, m: nat)
    requires pos < |src| && src[pos] != '"' && n + |From(src, pos)| < out.Length
    requires Reading(t0, out[..n], From(src, pos))
    modifies out
    ensures pos < p <= |src| + 1 && m + |From(src, p)| <= n + |From(src, pos)|
    ensures m <= out.Length && Reading(t0, out[..m], From(src, p))
  {
    FromStep(src, pos);
    if src[pos] == '\\' {
      UnescapeShrinks(From(src, pos + 1));
      ReadingEscape(t0, out[..n], From(src, pos), Unescape(From(src, pos + 1)).0, Unescape(From(src, pos + 1)).1);
      m, p := EscapeInto(src, pos + 1, out, n);
      p := p + 1;
    } else {
      ReadingChar(t0, out[..n], From(src, pos));
      PutChar(out, n, src[pos]);
      m, p := n + 1, pos + 1;
    }
  }

  // An optional colon, and the blanks around it.
  method ColonAt(src: string, pos: nat) returns (p: nat)
    requires pos <= |src| + 1
    ensures pos <= p <= |src| + 1
    ensures var v := SkipWs(From(src, pos)); From(src, p) == SkipWs(if v != [] && v[0] == ':' then v[1..] else v)
  {
    p := SkipBlanks(src, pos);
    FromStep(src, p);
    if p < |src| && src[p] == ':' { p := p + 1; }
    p := SkipBlanks(src, p);
  }

  method KeyAt(src: string, pos: nat) returns (k: Key, p: nat)
    requires pos <= |src|
    ensures pos <= p <= |src| + 1 && ReadKey(From(src, pos)) == (k, From(src, p))
  {
    p := SkipBlanks(src, pos);
    k, p := ParseString(src, p);
    p := ColonAt(src, p);
  }

  // ---- values

  // The items read so far, before those still to come.
  function Ahead(done: seq<Json>, r: Outcome<Items>): Outcome<Items>
    decreases done
  {
    if done == [] || r.Diverges? then r
    else Ahead(done[..|done| - 1], Done(Item(done[|done| - 1], r.val), r.rest))
  }

  function AheadMembers(done: seq<(Key, Json)>, r: Outcome<Members>): Outcome<Members>
    decreases done
  {
    if done == [] || r.Diverges? then r
    else AheadMembers(done[..|done| - 1], Done(Member(done[|done| - 1].0, done[|done| - 1].1, r.val), r.rest))
  }

  // The result of a call: the value, or none where the program would loop for ever.
  datatype Read = Got(val: Json) | Stuck

  predicate Agrees(o: Outcome<Json>, r: Read, rest: string) {
    if r.Got? then o == Done(r.val, rest) else o == Diverges
  }

  lemma AheadMore(done: seq<Json>, v: Json, r: Outcome<Items>)
    ensures Ahead(done + [v], r) == Ahead(done, if r.Done? then Done(Item(v, r.val), r.rest) else Diverges)
  {
    assert (done + [v])[..|done + [v]| - 1] == done;
  }

  lemma AheadMoreMembers(done: seq<(Key, Json)>, k: Key, v: Json, r: Outcome<Members>)
    ensures AheadMembers(done + [(k, v)], r) ==
            AheadMembers(done, if r.Done? then Done(Member(k, v, r.val), r.rest) else Diverges)
  {
    assert (done + [(k, v)])[..|done + [(k, v)]| - 1] == done;
  }

  lemma {:induction false} AheadStuck(done: seq<Json>)
    ensures Ahead(done, Diverges) == Diverges
  {
  }

  lemma {:induction false} AheadMembersStuck(done: seq<(Key, Json)>)
    ensures AheadMembers(done, Diverges) == Diverges
  {
  }

  lemma {:induction false} AheadRest(done: seq<Json>, r: Outcome<Items>)
    requires r.Done?
    ensures Ahead(done, r).Done? && Ahead(done, r).rest == r.rest
    decreases |done|
  {
    if done != [] { AheadRest(done[..|done| - 1], Done(Item(done[|done| - 1], r.val), r.rest)); }
  }

  lemma {:induction false} AheadMembersRest(done: seq<(Key, Json)>, r: Outcome<Members>)
    requires r.Done?
    ensures AheadMembers(done, r).Done? && AheadMembers(done, r).rest == r.rest
    decreases |done|
  {
    if done != [] {
      AheadMembersRest(done[..|done| - 1], Done(Member(done[|done| - 1].0, done[|done| - 1].1, r.val), r.rest));
    }
  }

  class Parser {
    const src: string
    const other: Strtod
    var pos: nat

    constructor (src: string, other: Strtod)
      ensures this.src == src && this.other == other && pos == 0
    {
      this.src, this.other, pos := src, other, 0;
    }

    method ParseValue() returns (r: Read)
      requires pos <= |src| + 1
      modifies this
      ensures old(pos) <= pos <= |src| + 1
      ensures Agrees(Parse(From(src, old(pos)), other), r, From(src, pos))
      decreases |From(src, pos)|, 1
    {
      var at := SkipBlanks(src, pos);
      pos := at;
      FromStep(src, pos);
      if pos >= |src| { return Got(Error); }
      var c := src[pos];
      if c == '"' {
        var k, p := ParseString(src, pos);
        pos := p;
        return Got(Str(k.s));
      }
      if c == '[' { r := ParseArray(); return; }
      if c == '{' { r := ParseObject(); return; }
      r := ParseWord();
    }

    // A literal, a number, or nothing.
    method ParseWord() returns (r: Read)
      requires pos < |src|
      requires var c := src[pos]; !IsSpace(c) && c != '"' && c != '[' && c != '{'
      modifies this
      ensures old(pos) <= pos <= |src| + 1
      ensures Agrees(Parse(From(src, old(pos)), other), r, From(src, pos))
    {
      ghost var t := From(src, pos);
      FromStep(src, pos);
      NoBlank(t);
      FromWord(src, pos, "null");
      FromWord(src, pos, "true");
      FromWord(src, pos, "false");
      if pos + 4 <= |src| && src[pos..pos + 4] == "null" { pos := pos + 4; return Got(Null); }
      if pos + 4 <= |src| && src[pos..pos + 4] == "true" { pos := pos + 4; return Got(Bool(true)); }
      if pos + 5 <= |src| && src[pos..pos + 5] == "false" { pos := pos + 5; return Got(Bool(false)); }
      if src[pos] == '-' || IsDigit(src[pos]) {
        var n := ReadNumber(src[pos..], other);
        assert t[n.1..] == From(src, pos + n.1);
        pos := pos + n.1;
        return Got(Num(n.0));
      }
      return Got(Error);
    }

    method ParseArray() returns (r: Read)
      requires pos < |src| && src[pos] == '['
      modifies this
      ensures old(pos) <= pos <= |src| + 1
      ensures Agrees(Parse(From(src, old(pos)), other), r, From(src, pos))
      decreases |From(src, pos)|, 0
    {
      ghost var t := From(src, pos);
      FromStep(src, pos);
      NoBlank(t);
      var p := SkipBlanks(src, pos + 1);
      pos := p;
      FromStep(src, pos);
      if pos < |src| && src[pos] == ']' {
        pos := pos + 1;
        return Got(Arr(NoItem));
      }
      var ok, l := ParseItemLoop();
      r := if ok then Got(Arr(l)) else Stuck;
    }

    // The end of an item: past the closing bracket, which is then the last, or past a comma.
    method Separator(close: char) returns (last: bool)
      requires pos <= |src| + 1
      modifies this
      ensures old(pos) <= pos <= |src| + 1 && (!last ==> pos <= |src|)
      ensures var u := SkipWs(From(src, old(pos)));
              && last == (u == [] || u[0] == close)
              && From(src, pos) == if u == [] then u else if u[0] == close || u[0] == ',' then u[1..] else u
    {
      var p := SkipBlanks(src, pos);
      pos := p;
      FromStep(src, pos);
      if pos >= |src| || src[pos] == close {
        if pos < |src| { pos := pos + 1; }
        return true;
      }
      if src[pos] == ',' { pos := pos + 1; }
      return false;
    }

    // The loop over items; ok is false where an iteration leaves the place where it was.
    method ParseItemLoop() returns (ok: bool, l: Items)
      requires pos <= |src| + 1
      modifies this
      ensures old(pos) <= pos <= |src| + 1
      ensures ParseItems(From(src, old(pos)), other) == if ok then Done(l, From(src, pos)) else Diverges
      decreases |From(src, pos)|, 2
    {
      ghost var whole := ParseItems(From(src, pos), other);
      var items: seq<Json> := [];
      while true
        invariant old(pos) <= pos <= |src| + 1 && |From(src, pos)| <= |From(src, old(pos))|
        invariant whole == Ahead(items, ParseItems(From(src, pos), other))
        decreases |From(src, pos)|
      {
        ghost var t := From(src, pos);
        var head := pos;
        var p := SkipBlanks(src, pos);
        pos := p;
        var v := ParseValue();
        if v.Stuck? {
          AheadStuck(items);
          return false, NoItem;
        }
        var last := Separator(']');
        if last {
          l := Collect(items + [v.val], From(src, pos));
          AheadMore(items, v.val, Done(NoItem, From(src, pos)));
          return true, l;
        }
        FromStep(src, head);
        FromStep(src, pos);
        if pos == head {
          AheadStuck(items);
          return false, NoItem;
        }
        AheadMore(items, v.val, ParseItems(From(src, pos), other));
        items := items + [v.val];
      }
    }

    method ParseObject() returns (r: Read)
      requires pos < |src| && src[pos] == '{'
      modifies this
      ensures old(pos) <= pos <= |src| + 1
      ensures Agrees(Parse(From(src, old(pos)), other), r, From(src, pos))
      decreases |From(src, pos)|, 0
    {
      ghost var t := From(src, pos);
      FromStep(src, pos);
      NoBlank(t);
      var p := SkipBlanks(src, pos + 1);
      pos := p;
      FromStep(src, pos);
      if pos < |src| && src[pos] == '}' {
        pos := pos + 1;
        return Got(Obj(NoMember));
      }
      var ok, l := ParseMemberLoop();
      r := if ok then Got(Obj(l)) else Stuck;
    }

    // A key, its colon and the blanks around it.
    method ParseKey() returns (k: Key)
      requires pos <= |src|
      modifies this
      ensures old(pos) <= pos <= |src| + 1
      ensures ReadKey(From(src, old(pos))) == (k, From(src, pos))
    {
      var p;
      k, p := KeyAt(src, pos);
      pos := p;
    }

    method ParseEntry() returns (k: Key, v: Read)
      requires pos <= |src|
      modifies this
      ensures old(pos) <= pos <= |src| + 1
      ensures var e := ReadKey(From(src, old(pos)));
              k == e.0 && Agrees(Parse(e.1, other), v, From(src, pos))
      decreases |From(src, pos)|, 2
    {
      k := ParseKey();
      v := ParseValue();
    }

    method ParseMemberLoop() returns (ok: bool, l: Members)
      requires pos <= |src|
      modifies this
      ensures old(pos) <= pos <= |src| + 1
      ensures ParseMembers(From(src, old(pos)), other) == if ok then Done(l, From(src, pos)) else Diverges
      decreases |From(src, pos)|, 3
    {
      ghost var t0 := From(src, pos);
      var members: seq<(Key, Json)> := [];
      while true
        invariant old(pos) <= pos <= |src|
        invariant SoFar(t0, members, From(src, pos), other)
        decreases |src| - pos
      {
        var head := pos;
        ghost var t := From(src, pos);
        var k, v := ParseEntry();
        if v.Stuck? {
          EntryStuck(t0, members, t, other);
          return false, NoMember;
        }
        ghost var u0 := From(src, pos);
        var last := Separator('}');
        if last {
          EntryLast(t0, members, t, k, v.val, u0, other);
          l := CollectMembers(members + [(k, v.val)], From(src, pos));
          return true, l;
        }
        EntryMore(t0, members, t, k, v.val, u0, From(src, pos), other);
        if pos == head {
          return false, NoMember;
        }
        members := members + [(k, v.val)];
      }
    }
  }

  // The members read so far, before what is left of the text.
  ghost predicate SoFar(t0: string, members: seq<(Key, Json)>, t: string, other: Strtod) {
    ParseMembers(t0, other) == AheadMembers(members, ParseMembers(t, other))
  }

  lemma EntryStuck(t0: string, members: seq<(Key, Json)>, t: string, other: Strtod)
    requires SoFar(t0, members, t, other) && Parse(ReadKey(t).1, other) == Diverges
    ensures ParseMembers(t0, other) == Diverges
  {
    AheadMembersStuck(members);
  }

  lemma EntryLast(t0: string, members: seq<(Key, Json)>, t: string, k: Key, v: Json, u0: string, other: Strtod)
    requires SoFar(t0, members, t, other) && k == ReadKey(t).0 && Parse(ReadKey(t).1, other) == Done(v, u0)
    requires var u := SkipWs(u0); u == [] || u[0] == '}'
    ensures var u := SkipWs(u0);
            ParseMembers(t0, other) ==
            AheadMembers(members + [(k, v)], Done(NoMember, if u == [] then u else u[1..]))
  {
    var u := SkipWs(u0);
    AheadMoreMembers(members, k, v, Done(NoMember, if u == [] then u else u[1..]));
  }

  lemma EntryMore(t0: string, members: seq<(Key, Json)>, t: string, k: Key, v: Json, u0: string, w: string,
                  other: Strtod)
    requires SoFar(t0, members, t, other) && k == ReadKey(t).0 && Parse(ReadKey(t).1, other) == Done(v, u0)
    requires var u := SkipWs(u0); u != [] && u[0] != '}' && w == if u[0] == ',' then u[1..] else u
    ensures |w| >= |t| ==> ParseMembers(t0, other) == Diverges
    ensures |w| < |t| ==> SoFar(t0, members + [(k, v)], w, other)
  {
    AheadMembersStuck(members);
    if |w| < |t| {
      AheadMoreMembers(members, k, v, ParseMembers(w, other));
    }
  }

  method Collect(done: seq<Json>, ghost rest: string) returns (l: Items)
    ensures Ahead(done, Done(NoItem, rest)) == Done(l, rest)
  {
    l := NoItem;
    var i: nat := |done|;
    assert done[..|done|] == done;
    while i > 0
      invariant i <= |done| && Ahead(done, Done(NoItem, rest)) == Ahead(done[..i], Done(l, rest))
    {
      i := i - 1;
      assert done[..i + 1][..i] == done[..i];
      l := Item(done[i], l);
    }
  }

  method CollectMembers(done: seq<(Key, Json)>, ghost rest: string) returns (l: Members)
    ensures AheadMembers(done, Done(NoMember, rest)) == Done(l, rest)
  {
    l := NoMember;
    var i: nat := |done|;
    assert done[..|done|] == done;
    while i > 0
      invariant i <= |done| && AheadMembers(done, Done(NoMember, rest)) == AheadMembers(done[..i], Done(l, rest))
    {
      i := i - 1;
      assert done[..i + 1][..i] == done[..i];
      l := Member(done[i].0, done[i].1, l);
    }
  }
}
