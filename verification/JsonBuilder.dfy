// The builder's buffer: every call appends, and a tree written by the natural calls is its text.

module JsonBuilder {
  import opened JsonText
  import opened JsonRoundTrip

  // The comma rule looks at the last byte only.
  function CommaAfter(s: string): string {
    if s != [] && s[|s| - 1] != '[' && s[|s| - 1] != '{' && s[|s| - 1] != ':' then "," else ""
  }

  // The room of the buffer is its array; len bytes of it have been written, and buf is these.
  class JBuf {
    var data: array<char>
    var len: nat
    ghost var buf: string

    ghost predicate Valid()
      reads this, data
    {
      len <= data.Length && data[..len] == buf
    }

    constructor (init: nat)
      ensures Valid() && buf == "" && fresh(data)
    {
      data := new char[if init > 0 then init else 256];
      len, buf := 0, "";
    }

    // Room for need more bytes; what has been written moves to a larger array if there is not enough.
    method Ensure(need: nat)
      requires Valid()
      modifies this`data
      ensures Valid() && len + need <= data.Length
      ensures if len + need <= old(data.Length) then data == old(data)
              else fresh(data) && data.Length == 2 * old(data.Length) + need + 64
    {
      if len + need > data.Length {
        var bigger := new char[data.Length * 2 + need + 64];
        forall i | 0 <= i < len { bigger[i] := data[i]; }
        assert bigger[..len] == data[..len];
        data := bigger;
      }
    }

    method Append(s: string)
      requires Valid()
      modifies this, data
      ensures Valid() && buf == old(buf) + s && (data == old(data) || fresh(data))
    {
      Ensure(|s|);
      for i := 0 to |s|
        modifies data
        invariant data[..len + i] == buf + s[..i]
      {
        data[len + i] := s[i];
        assert s[..i + 1] == s[..i] + [s[i]];
      }
      len := len + |s|;
      buf := buf + s;
      assert s[..|s|] == s;
    }

    method Ch(c: char)
      requires Valid()
      modifies this, data
      ensures Valid() && buf == old(buf) + [c] && (data == old(data) || fresh(data))
    {
      Ensure(1);
      data[len] := c;
      len := len + 1;
      buf := buf + [c];
    }

    method Comma()
      requires Valid()
      modifies this, data
      ensures Valid() && buf == old(buf) + CommaAfter(old(buf))
      ensures data == old(data) || fresh(data)
    {
      if len > 0 {
        var last := data[len - 1];
        assert last == buf[|buf| - 1];
        if last != '[' && last != '{' && last != ':' {
          Ch(',');
        }
      }
    }

    // A comma where one is due, then s.
    method Value(s: string)
      requires Valid()
      modifies this, data
      ensures Valid() && buf == old(buf) + CommaAfter(old(buf)) + s
      ensures data == old(data) || fresh(data)
    {
      Comma();
      Append(s);
    }

    // Keys are written as they are.
    method Key(k: string)
      requires Valid()
      modifies this, data
      ensures Valid() && buf == old(buf) + CommaAfter(old(buf)) + KeyText(JsonText.Key(k))
      ensures data == old(data) || fresh(data)
    {
      Comma();
      KeyWritten(buf, k);
      Ch('"');
      Append(k);
      Append("\":");
    }

    method Strn(s: string)
      requires Valid()
      modifies this, data
      ensures Valid()
      ensures data == old(data) || fresh(data)
      ensures buf == old(buf) + CommaAfter(old(buf)) + ("\"" + EscapedAll(s) + "\"")
    {
      Comma();
      Quoted(buf, EscapedAll(s));
      Ch('"');
      AppendAll(s);
      Ch('"');
    }

    method AppendAll(s: string)
      requires Valid()
      modifies this, data
      ensures Valid() && buf == old(buf) + EscapedAll(s)
      ensures data == old(data) || fresh(data)
    {
      ghost var before := buf;
      for i := 0 to |s|
        invariant Valid() && buf == before + EscapedAll(s[..i]) && (data == old(data) || fresh(data))
      {
        EscapedMore(before, s, i);
        AppendEscaped(s[i]);
      }
      assert s[..|s|] == s;
    }

    method AppendEscaped(c: char)
      requires Valid()
      modifies this, data
      ensures Valid() && buf == old(buf) + Escaped(c)
      ensures data == old(data) || fresh(data)
    {
      if c == '"' { Append("\\\""); }
      else if c == '\\' { Append("\\\\"); }
      else if c == '\n' { Append("\\n"); }
      else if c == '\r' { Append("\\r"); }
      else if c == '\t' { Append("\\t"); }
      else if c < ' ' { Append("\\u00" + [HexDigit(c as int / 16), HexDigit(c as int % 16)]); }
      else { Ch(c); }
    }

    // A tree, by the natural calls.
    method Write(v: Json)
      requires Valid() && Writable(v)
      modifies this, data
      ensures Valid() && buf == old(buf) + CommaAfter(old(buf)) + Text(v)
      ensures data == old(data) || fresh(data)
      decreases v, 0
    {
      match v
      case Null => Value("null");
      case Bool(b) => Value(if b then "true" else "false");
      case Num(n) => Value(Decimal(n.Floor));
      case Str(s) => Strn(s);
      case Arr(items) =>
        Value("[");
        WriteItems(items);
        Ch(']');
        ArrGlue(old(buf), items);
      case Obj(members) =>
        Value("{");
        WriteMembers(members);
        Ch('}');
        ObjGlue(old(buf), members);
    }

    method WriteItems(l: Items)
      requires Valid() && WritableItems(l)
      modifies this, data
      ensures Valid() && buf == WithItems(old(buf), l)
      ensures data == old(data) || fresh(data)
      decreases l, 1
    {
      if l.Item? {
        ItemsGlue(buf, l);
        Write(l.head);
        WriteItems(l.tail);
      }
    }

    method WriteMembers(l: Members)
      requires Valid() && WritableMembers(l)
      modifies this, data
      ensures Valid() && buf == WithMembers(old(buf), l)
      ensures data == old(data) || fresh(data)
      decreases l, 1
    {
      if l.Member? {
        MembersGlue(buf, l);
        Key(l.key.s);
        Write(l.val);
        WriteMembers(l.tail);
      }
    }

    // The finished text, with its terminator.
    method Finish() returns (r: string)
      requires Valid()
      modifies this`data, data
      ensures Valid() && r == buf && buf == old(buf) && len < data.Length && data[len] == '\0'
      ensures data == old(data) || fresh(data)
    {
      Ensure(1);
      data[len] := '\0';
      r := data[..len];
    }
  }

  lemma KeyWritten(p: string, k: string)
    ensures p + ['"'] + k + "\":" == p + KeyText(JsonText.Key(k))
  {
    assert KeyText(JsonText.Key(k)) == "\"" + k + "\":";
  }

  lemma Quoted(p: string, s: string)
    ensures p + ['"'] + s + ['"'] == p + ("\"" + s + "\"")
  {
  }

  lemma {:induction false} EscapedApp(a: string, b: string)
    ensures EscapedAll(a + b) == EscapedAll(a) + EscapedAll(b)
  {
    if a == [] {
      assert a + b == b;
    } else {
      assert (a + b)[1..] == a[1..] + b;
      EscapedApp(a[1..], b);
    }
  }

  lemma EscapedMore(before: string, s: string, i: nat)
    requires i < |s|
    ensures before + EscapedAll(s[..i]) + Escaped(s[i]) == before + EscapedAll(s[..i + 1])
  {
    assert s[..i + 1] == s[..i] + [s[i]];
    EscapedApp(s[..i], [s[i]]);
    assert [s[i]][1..] == [] && EscapedAll([]) == "";
    assert Escaped(s[i]) + "" == Escaped(s[i]);
    assert EscapedAll(s[..i + 1]) == EscapedAll(s[..i]) + Escaped(s[i]);
  }

  // After a whole value a comma is due.
  lemma LastOf(v: Json, before: string)
    requires Writable(v)
    ensures CommaAfter(before + Text(v)) == ","
  {
    var t := Text(v);
    if v.Num? { DigitsValue(if v.n.Floor < 0 then -v.n.Floor else v.n.Floor); }
    assert t != [] && t[|t| - 1] != '[' && t[|t| - 1] != '{' && t[|t| - 1] != ':';
    assert (before + t)[|before + t| - 1] == t[|t| - 1];
  }

  function WithItems(before: string, l: Items): string {
    if l.NoItem? then before else before + CommaAfter(before) + ItemsText(l)
  }

  function WithMembers(before: string, l: Members): string {
    if l.NoMember? then before else before + CommaAfter(before) + MembersText(l)
  }

  lemma Regroup(p: string, k: string, t: string, u: string)
    ensures p + k + t + "," + u == p + (k + t + ("," + u))
    ensures p + t + "," + u == p + (t + ("," + u))
    ensures p + k + t == p + (k + t + "") && p + t == p + (t + "")
  {
  }

  lemma ItemsCons(l: Items)
    requires l.Item?
    ensures ItemsText(l) == Text(l.head) + (if l.tail.NoItem? then "" else "," + ItemsText(l.tail))
  {
  }

  lemma ItemsGlue(before: string, l: Items)
    requires l.Item? && WritableItems(l)
    ensures WithItems(before + CommaAfter(before) + Text(l.head), l.tail) == WithItems(before, l)
  {
    var p := before + CommaAfter(before);
    ItemsCons(l);
    LastOf(l.head, p);
    Regroup(p, "", Text(l.head), ItemsText(l.tail));
  }

  lemma MembersCons(l: Members)
    requires l.Member?
    ensures MembersText(l) ==
            KeyText(l.key) + Text(l.val) + (if l.tail.NoMember? then "" else "," + MembersText(l.tail))
  {
  }

  lemma KeyLast(p: string, k: JsonText.Key)
    requires k.Key?
    ensures var q := p + KeyText(k); CommaAfter(q) == "" && q + CommaAfter(q) == q
  {
    var q := p + KeyText(k);
    assert q[|q| - 1] == ':';
  }

  lemma MembersGlue(before: string, l: Members)
    requires l.Member? && WritableMembers(l)
    ensures var k := before + CommaAfter(before) + KeyText(l.key);
            WithMembers(k + CommaAfter(k) + Text(l.val), l.tail) == WithMembers(before, l)
  {
    var p := before + CommaAfter(before);
    MembersCons(l);
    KeyLast(p, l.key);
    LastOf(l.val, p + KeyText(l.key));
    Regroup(p, KeyText(l.key), Text(l.val), MembersText(l.tail));
  }

  lemma Enclose(p: string, open: char, t: string, close: char)
    requires open == '[' || open == '{'
    ensures CommaAfter(p + [open]) == "" && p + [open] + "" + t + [close] == p + ([open] + t + [close])
    ensures p + [open] + [close] == p + ([open] + "" + [close])
  {
    assert (p + [open])[|p + [open]| - 1] == open;
  }

  lemma ArrGlue(before: string, l: Items)
    ensures var p := before + CommaAfter(before); WithItems(p + "[", l) + [']'] == p + Text(Arr(l))
  {
    Enclose(before + CommaAfter(before), '[', ItemsText(l), ']');
  }

  lemma ObjGlue(before: string, l: Members)
    ensures var p := before + CommaAfter(before); WithMembers(p + "{", l) + ['}'] == p + Text(Obj(l))
  {
    Enclose(before + CommaAfter(before), '{', MembersText(l), '}');
  }

  // Written into an empty buffer and parsed, a tree comes back.
  method WriteThenParse(v: Json, other: Strtod) returns (r: Outcome<Json>)
    requires Writable(v)
    ensures r == Done(v, "")
  {
    var j := new JBuf(0);
    j.Write(v);
    var text := j.Finish();
    assert text == Text(v);
    RoundTrip(v, other);
    r := Parse(text, other);
  }
}
