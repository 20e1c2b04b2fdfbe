// JSON text: what the builder writes for a tree, what the parser reads, and that the one undoes the other.

module JsonText {

  // Bytes are characters. A parsed key is absent when no string stood where a key belongs.
  datatype Json =
    | Null
    | Bool(b: bool)
    | Num(n: real)
    | Str(s: string)
    | Arr(items: Items)
    | Obj(members: Members)
    | Error

  datatype Items = NoItem | Item(head: Json, tail: Items)

  datatype Key = NoKey | Key(s: string)

  datatype Members = NoMember | Member(key: Key, val: Json, tail: Members)

  // ---- the text of a tree

  function Digit(d: nat): (c: char)
    requires d < 10
    ensures '0' <= c <= '9' && c as int == '0' as int + d
  {
    ('0' as int + d) as char
  }

  function Digits(n: nat): (s: string)
    ensures s != []
  {
    if n < 10 then [Digit(n)] else Digits(n / 10) + [Digit(n % 10)]
  }

  function Decimal(v: int): (s: string)
    ensures s != []
  {
    if v < 0 then "-" + Digits(-v) else Digits(v)
  }

  function HexDigit(d: nat): (c: char)
    requires d < 16
  {
    if d < 10 then Digit(d) else ('a' as int + d - 10) as char
  }

  // A character inside a string (RFC 8259, section 7).
  function Escaped(c: char): (s: string)
    ensures s != []
  {
    if c == '"' then "\\\""
    else if c == '\\' then "\\\\"
    else if c == '\n' then "\\n"
    else if c == '\r' then "\\r"
    else if c == '\t' then "\\t"
    else if c < ' ' then "\\u00" + [HexDigit(c as int / 16), HexDigit(c as int % 16)]
    else [c]
  }

  function EscapedAll(s: string): string {
    if s == [] then [] else Escaped(s[0]) + EscapedAll(s[1..])
  }

  function Text(v: Json): string
    decreases v, 0
  {
    match v
    case Null => "null"
    case Bool(b) => if b then "true" else "false"
    case Num(n) => Decimal(n.Floor)
    case Str(s) => "\"" + EscapedAll(s) + "\""
    case Arr(items) => "[" + ItemsText(items) + "]"
    case Obj(members) => "{" + MembersText(members) + "}"
    case Error => ""
  }

  function ItemsText(l: Items): string
    decreases l, 1
  {
    match l
    case NoItem => ""
    case Item(h, tl) => Text(h) + (if tl.NoItem? then "" else "," + ItemsText(tl))
  }

  function KeyText(k: Key): string {
    if k.NoKey? then "" else "\"" + k.s + "\":"
  }

  function MembersText(l: Members): string
    decreases l, 1
  {
    match l
    case NoMember => ""
    case Member(k, v, tl) => KeyText(k) + Text(v) + (if tl.NoMember? then "" else "," + MembersText(tl))
  }

  // ---- what a caller can write: integers a double holds exactly, keys that need no escape

  const EXACT: int := 9007199254740992

  ghost predicate PlainKey(k: string) {
    '"' !in k && '\\' !in k
  }

  ghost predicate Writable(v: Json)
    decreases v, 0
  {
    match v
    case Num(n) => n == n.Floor as real && -EXACT <= n.Floor <= EXACT
    case Arr(items) => WritableItems(items)
    case Obj(members) => WritableMembers(members)
    case Error => false
    case _ => true
  }

  ghost predicate WritableItems(l: Items)
    decreases l, 1
  {
    l.NoItem? || (Writable(l.head) && WritableItems(l.tail))
  }

  ghost predicate WritableMembers(l: Members)
    decreases l, 1
  {
    l.NoMember? || (l.key.Key? && PlainKey(l.key.s) && Writable(l.val) && WritableMembers(l.tail))
  }

  // ---- the parser, on what is left of the text

  predicate IsSpace(c: char) {
    c == ' ' || '\t' <= c <= '\r'
  }

  function SkipWs(t: string): (r: string)
    ensures |r| <= |t|
    ensures r != [] ==> !IsSpace(r[0])
  {
    if t != [] && IsSpace(t[0]) then SkipWs(t[1..]) else t
  }

  predicate IsDigit(c: char) {
    '0' <= c <= '9'
  }

  function HexVal(c: char): (d: nat)
    ensures d < 16
  {
    if '0' <= c <= '9' then c as int - '0' as int
    else if 'a' <= c <= 'f' then c as int - 'a' as int + 10
    else if 'A' <= c <= 'F' then c as int - 'A' as int + 10
    else 0
  }

  // Up to n more characters as hexadecimal digits; anything else counts as zero.
  function Hex(t: string, n: nat, cp: nat): (r: (nat, string))
    ensures |r.1| <= |t| && |t| - |r.1| <= n
    decreases n
  {
    if n == 0 || t == [] then (cp, t) else Hex(t[1..], n - 1, cp * 16 + HexVal(t[0]))
  }

  function Byte(b: nat): char
    requires b < 256
  {
    b as char
  }

  // A 16-bit value in UTF-8.
  function Utf8Of(cp: nat): (s: string)
    requires cp < 0x10000
    ensures 1 <= |s| <= 3
  {
    if cp < 0x80 then [Byte(cp)]
    else if cp < 0x800 then [Byte(0xC0 + cp / 64), Byte(0x80 + cp % 64)]
    else [Byte(0xE0 + cp / 4096), Byte(0x80 + cp / 64 % 64), Byte(0x80 + cp % 64)]
  }

  lemma {:induction false} HexBound(t: string, n: nat, cp: nat)
    requires n <= 4
    requires (n == 4 ==> cp == 0) && (n == 3 ==> cp < 16) && (n == 2 ==> cp < 256) && (n == 1 ==> cp < 4096)
    requires n == 0 ==> cp < 65536
    ensures Hex(t, n, cp).0 < 0x10000
    decreases n
  {
    if n > 0 && t != [] { HexBound(t[1..], n - 1, cp * 16 + HexVal(t[0])); }
  }

  // What a backslash stands for; t is the text after it, and at its end the terminator is taken.
  function Unescape(t: string): (r: (string, string))
    ensures |r.1| <= |t|
  {
    if t == [] then ("\0", [])
    else if t[0] == 'n' then ("\n", t[1..])
    else if t[0] == 'r' then ("\r", t[1..])
    else if t[0] == 't' then ("\t", t[1..])
    else if t[0] == 'u' then
      var h := Hex(t[1..], 4, 0);
      HexBound(t[1..], 4, 0);
      (Utf8Of(h.0), h.1)
    else ([t[0]], t[1..])
  }

  // The rest of a string whose opening quote is passed, and the text after its closing quote.
  function ReadString(t: string): (r: (string, string))
    ensures |r.1| <= |t|
  {
    if t == [] then ([], [])
    else if t[0] == '"' then ([], t[1..])
    else if t[0] == '\\' then
      var e := Unescape(t[1..]);
      var rest := ReadString(e.1);
      (e.0 + rest.0, rest.1)
    else
      var rest := ReadString(t[1..]);
      ([t[0]] + rest.0, rest.1)
  }

  function DigitCount(t: string): (n: nat)
    ensures n <= |t| && forall i :: 0 <= i < n ==> IsDigit(t[i])
  {
    if t != [] && IsDigit(t[0]) then 1 + DigitCount(t[1..]) else 0
  }

  function Value(ds: string): (n: nat)
    requires forall i :: 0 <= i < |ds| ==> IsDigit(ds[i])
  {
    if ds == [] then 0
    else
      assert IsDigit(ds[|ds| - 1]);
      Value(ds[..|ds| - 1]) * 10 + (ds[|ds| - 1] as int - '0' as int)
  }

  // What after some digits makes more of a number than an integer.
  predicate GoesOn(c: char) {
    c == '.' || c == 'e' || c == 'E' || c == 'x' || c == 'X'
  }

  type Strtod = string -> (real, nat)

  // The library's number reader: on a plain integer that a double holds exactly it yields that integer;
  // other stands for all else it does.
  function ReadNumber(t: string, other: Strtod): (r: (real, nat))
    requires t != []
    ensures r.1 <= |t|
  {
    var k := if t[0] == '-' then 1 else 0;
    var d := DigitCount(t[k..]);
    var v := Value(t[k..][..d]);
    if d > 0 && v <= EXACT && (k + d == |t| || !GoesOn(t[k + d])) then
      (if k == 1 then -(v as real) else v as real, k + d)
    else
      var o := other(t);
      (o.0, if o.1 <= |t| then o.1 else |t|)
  }

  // Read and what is left, or a loop that repeats itself without moving on: the program never returns.
  datatype Outcome<+T> = Done(val: T, rest: string) | Diverges

  predicate StartsWith(t: string, w: string) {
    |w| <= |t| && t[..|w|] == w
  }

  function Parse(t0: string, other: Strtod): (r: Outcome<Json>)
    ensures r.Done? ==> |r.rest| <= |t0|
    decreases |t0|, 0
  {
    var t := SkipWs(t0);
    if t == [] then Done(Error, t)
    else if t[0] == '"' then var s := ReadString(t[1..]); Done(Str(s.0), s.1)
    else if t[0] == '[' then
      var u := SkipWs(t[1..]);
      if u != [] && u[0] == ']' then Done(Arr(NoItem), u[1..])
      else
        var l := ParseItems(u, other);
        if l.Done? then Done(Arr(l.val), l.rest) else Diverges
    else if t[0] == '{' then
      var u := SkipWs(t[1..]);
      if u != [] && u[0] == '}' then Done(Obj(NoMember), u[1..])
      else
        var l := ParseMembers(u, other);
        if l.Done? then Done(Obj(l.val), l.rest) else Diverges
    else if StartsWith(t, "null") then Done(Null, t[4..])
    else if StartsWith(t, "true") then Done(Bool(true), t[4..])
    else if StartsWith(t, "false") then Done(Bool(false), t[5..])
    else if t[0] == '-' || IsDigit(t[0]) then
      var n := ReadNumber(t, other);
      Done(Num(n.0), t[n.1..])
    else Done(Error, t)
  }

  function ParseItems(t: string, other: Strtod): (r: Outcome<Items>)
    ensures r.Done? ==> |r.rest| <= |t|
    decreases |t|, 1
  {
    var a := Parse(SkipWs(t), other);
    if a.Diverges? then Diverges
    else
      var u := SkipWs(a.rest);
      if u == [] then Done(Item(a.val, NoItem), u)
      else if u[0] == ']' then Done(Item(a.val, NoItem), u[1..])
      else
        var w := if u[0] == ',' then u[1..] else u;
        if |w| >= |t| then Diverges
        else
          var l := ParseItems(w, other);
          if l.Done? then Done(Item(a.val, l.val), l.rest) else Diverges
  }

  // A key, the colon and the blanks around it.
  function ReadKey(t: string): (r: (Key, string))
    ensures |r.1| <= |t|
  {
    var u := SkipWs(t);
    var k := if u != [] && u[0] == '"' then var s := ReadString(u[1..]); (Key(s.0), s.1) else (NoKey, u);
    var v := SkipWs(k.1);
    (k.0, SkipWs(if v != [] && v[0] == ':' then v[1..] else v))
  }

  function ParseMembers(t: string, other: Strtod): (r: Outcome<Members>)
    ensures r.Done? ==> |r.rest| <= |t|
    decreases |t|, 1
  {
    var k := ReadKey(t);
    var a := Parse(k.1, other);
    if a.Diverges? then Diverges
    else
      var u := SkipWs(a.rest);
      if u == [] then Done(Member(k.0, a.val, NoMember), u)
      else if u[0] == '}' then Done(Member(k.0, a.val, NoMember), u[1..])
      else
        var w := if u[0] == ',' then u[1..] else u;
        if |w| >= |t| then Diverges
        else
          var l := ParseMembers(w, other);
          if l.Done? then Done(Member(k.0, a.val, l.val), l.rest) else Diverges
  }

  // ---- strings

  lemma ReadEscaped(c: char, rest: string)
    ensures ReadString(Escaped(c) + rest) == ([c] + ReadString(rest).0, ReadString(rest).1)
  {
    var t := Escaped(c) + rest;
    if c in "\"\\\n\r\t" {
      assert t[1..][1..] == rest;
    } else if c < ' ' {
      var a, b := c as int / 16, c as int % 16;
      assert t == "\\u00" + [HexDigit(a), HexDigit(b)] + rest;
      ReadControl(c, t[1..], rest);
    } else {
      assert t[1..] == rest;
    }
  }

  lemma ReadControl(c: char, t: string, rest: string)
    requires c < ' ' && t == "u00" + [HexDigit(c as int / 16), HexDigit(c as int % 16)] + rest
    ensures Unescape(t) == ([c], rest)
  {
    var a, b := c as int / 16, c as int % 16;
    var t1 := t[1..];
    var t2 := t1[1..];
    var t3 := t2[1..];
    var t4 := t3[1..];
    assert Hex(t1, 4, 0) == Hex(t2, 3, 0) == Hex(t3, 2, 0) == Hex(t4, 1, a);
    assert t4[1..] == rest;
    assert Hex(t4, 1, a) == Hex(rest, 0, c as int) == (c as int, rest);
  }

  lemma {:induction false} ReadEscapedAll(s: string, rest: string)
    ensures ReadString(EscapedAll(s) + "\"" + rest) == (s, rest)
  {
    if s == [] {
      assert (EscapedAll(s) + "\"" + rest)[1..] == rest;
    } else {
      var tail := EscapedAll(s[1..]) + "\"" + rest;
      assert EscapedAll(s) + "\"" + rest == Escaped(s[0]) + tail;
      ReadEscaped(s[0], tail);
      ReadEscapedAll(s[1..], rest);
      assert s == [s[0]] + s[1..];
    }
  }

  lemma {:induction false} ReadPlain(k: string, rest: string)
    requires PlainKey(k)
    ensures ReadString(k + "\"" + rest) == (k, rest)
  {
    if k == [] {
      assert (k + "\"" + rest)[1..] == rest;
    } else {
      assert (k + "\"" + rest)[1..] == k[1..] + "\"" + rest;
      ReadPlain(k[1..], rest);
      assert k == [k[0]] + k[1..];
    }
  }
}
