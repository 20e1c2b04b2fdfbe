// Framing between cluster nodes: whole messages through short reads and writes, and what a byte stream
// decodes to.

module Proto {
  import opened Shared

  type Byte = b: int | 0 <= b < 256

  // The answer of one read or write call: some bytes moved, a signal came, or it failed.
  datatype Io = Moved(n: nat) | Interrupted | Failed

  // Calls that move something.
  function Progress(plan: seq<Io>): nat {
    if plan == [] then 0 else (if plan[0].Moved? && plan[0].n > 0 then 1 else 0) + Progress(plan[1..])
  }

  function Min(a: nat, b: nat): nat {
    if a < b then a else b
  }

  lemma ProgressStep(plan: seq<Io>, i: nat)
    requires i < |plan|
    ensures Progress(plan[i..]) == Progress(plan[i + 1..]) + (if plan[i].Moved? && plan[i].n > 0 then 1 else 0)
  {
    assert plan[i..][1..] == plan[i + 1..];
  }

  // Whatever the calls answer, what goes out is a prefix of the buffer, all of it exactly on success; with
  // enough answers and no failure it succeeds. A plan that has run out counts as failure.
  method WriteAll(buf: seq<Byte>, plan: seq<Io>) returns (ok: bool, wire: seq<Byte>, used: nat)
    ensures wire <= buf && (ok <==> wire == buf) && used <= |plan|
    ensures Progress(plan) <= Progress(plan[used..]) + |wire|
    ensures Failed !in plan && Progress(plan) >= |buf| ==> ok
  {
    wire, used := [], 0;
    assert plan[0..] == plan;
    while |wire| < |buf|
      invariant wire <= buf && used <= |plan|
      invariant Progress(plan) <= Progress(plan[used..]) + |wire|
      decreases |plan| - used
    {
      if used == |plan| {
        assert plan[used..] == [];
        return false, wire, used;
      }
      ProgressStep(plan, used);
      var io := plan[used];
      used := used + 1;
      match io {
        case Interrupted =>
        case Failed => return false, wire, used;
        case Moved(n) =>
          var k := Min(n, |buf| - |wire|);
          wire := buf[..|wire| + k];
      }
    }
    return true, wire, used;
  }

  // Reading is the same: on success exactly the first len bytes of the stream; the end of the stream before
  // that is a failure.
  method ReadAll(src: seq<Byte>, len: nat, plan: seq<Io>) returns (ok: bool, got: seq<Byte>, used: nat)
    ensures got <= src && |got| <= len && (ok <==> |got| == len) && used <= |plan|
    ensures ok ==> Progress(plan) <= Progress(plan[used..]) + len
    ensures Failed !in plan && Moved(0) !in plan && Progress(plan) >= len && len <= |src| ==> ok
  {
    got, used := [], 0;
    assert plan[0..] == plan;
    while |got| < len
      invariant got <= src && |got| <= len && used <= |plan|
      invariant Progress(plan) <= Progress(plan[used..]) + |got|
      decreases |plan| - used
    {
      if used == |plan| {
        assert plan[used..] == [];
        return false, got, used;
      }
      ProgressStep(plan, used);
      var io := plan[used];
      used := used + 1;
      match io {
        case Interrupted =>
        case Failed => return false, got, used;
        case Moved(n) =>
          var k := Min(n, Min(len - |got|, |src| - |got|));
          if k == 0 { return false, got, used; }
          got := src[..|got| + k];
      }
    }
    return true, got, used;
  }

  // ---- one message

  const MAGIC_HI: Byte := 0xDF
  const MAGIC_LO: Byte := 0x0A
  const VERSION: Byte := 1
  const MAX_BODY: nat := 64 * 1024 * 1024

  function Be32(v: nat): (r: seq<Byte>)
    requires v < 0x1_0000_0000
    ensures |r| == 4
  {
    [v / 0x100_0000, v / 0x1_0000 % 256, v / 256 % 256, v % 256]
  }

  function FromBe32(s: seq<Byte>): (v: nat)
    requires |s| == 4
    ensures v < 0x1_0000_0000
  {
    var a: int, b: int, c: int, d: int := s[0], s[1], s[2], s[3];
    a * 0x100_0000 + b * 0x1_0000 + c * 256 + d
  }

  lemma Be32Back(v: nat)
    requires v < 0x1_0000_0000
    ensures FromBe32(Be32(v)) == v
  {
    var x := v / 256;
    var y := x / 256;
    assert y == v / 0x1_0000 && y / 256 == v / 0x100_0000;
    assert v == x * 256 + v % 256 && x == y * 256 + x % 256 && y == y / 256 * 256 + y % 256;
  }

  datatype Msg = Msg(kind: Byte, req: nat, body: seq<Byte>)

  // Fields the header has room for.
  predicate Fits(m: Msg) {
    m.req < 0x1_0000_0000 && |m.body| < 0x1_0000_0000
  }

  function Header(m: Msg): (r: seq<Byte>)
    requires Fits(m)
    ensures |r| == 16
  {
    [MAGIC_HI, MAGIC_LO, VERSION, m.kind] + Be32(m.req) + Be32(|m.body|) + [0, 0, 0, 0]
  }

  function Frame(m: Msg): (r: seq<Byte>)
    requires Fits(m)
    ensures |r| == 16 + |m.body|
  {
    Header(m) + m.body
  }

  datatype Recvd = Got(m: Msg, rest: seq<Byte>) | Short | BadMagic | TooLarge

  // What the receiver makes of the bytes that have arrived.
  function Recv(s: seq<Byte>): (r: Recvd)
    ensures r.Got? ==> |r.rest| < |s|
  {
    if |s| < 16 then Short
    else if s[0] != MAGIC_HI || s[1] != MAGIC_LO then BadMagic
    else
      var blen := FromBe32(s[8..12]);
      if blen > MAX_BODY then TooLarge
      else if |s| < 16 + blen then Short
      else Got(Msg(s[3], FromBe32(s[4..8]), s[16..16 + blen]), s[16 + blen..])
  }

  // The bytes of a frame: the mark, the version, the kind, and request and length in network order.
  lemma FrameBytes(m: Msg)
    requires Fits(m)
    ensures var f: seq<int> := Frame(m);
            && f[0] == 0xDF && f[1] == 0x0A && f[2] == 1 && f[3] == m.kind
            && m.req == ((f[4] * 256 + f[5]) * 256 + f[6]) * 256 + f[7]
            && |m.body| == ((f[8] * 256 + f[9]) * 256 + f[10]) * 256 + f[11]
            && f[12] == f[13] == f[14] == f[15] == 0 && f[16..] == m.body
  {
    Be32Digits(m.req);
    Be32Digits(|m.body|);
    var r, b := Be32(m.req), Be32(|m.body|);
    assert Header(m)[4..8] == r && Header(m)[8..12] == b;
    assert Frame(m)[..16] == Header(m);
  }

  lemma Be32Digits(v: nat)
    requires v < 0x1_0000_0000
    ensures var s: seq<int> := Be32(v); v == ((s[0] * 256 + s[1]) * 256 + s[2]) * 256 + s[3]
  {
    Be32Back(v);
  }

  lemma HeaderFields(m: Msg, s: seq<Byte>)
    requires Fits(m) && |s| >= 16 && s[..16] == Header(m)
    ensures s[0] == MAGIC_HI && s[1] == MAGIC_LO && s[3] == m.kind
    ensures FromBe32(s[4..8]) == m.req && FromBe32(s[8..12]) == |m.body|
  {
    var h := Header(m);
    assert s[0] == h[0] && s[1] == h[1] && s[3] == h[3];
    assert s[4..8] == h[4..8] == Be32(m.req);
    assert s[8..12] == h[8..12] == Be32(|m.body|);
    Be32Back(m.req);
    Be32Back(|m.body|);
  }

  // A frame comes back as its message, whatever follows it, exactly when its body is within the limit.
  lemma FrameBack(m: Msg, rest: seq<Byte>)
    requires Fits(m)
    ensures Recv(Frame(m) + rest) == if |m.body| <= 0x400_0000 then Got(m, rest) else TooLarge
  {
    var s := Frame(m) + rest;
    assert s[..16] == Header(m);
    HeaderFields(m, s);
    assert s[16..16 + |m.body|] == m.body && s[16 + |m.body|..] == rest;
  }

  // A frame cut short is never taken for a message.
  lemma CutFrame(m: Msg, p: seq<Byte>)
    requires Fits(m) && |m.body| <= MAX_BODY && p <= Frame(m) && p != Frame(m)
    ensures Recv(p) == Short
  {
    if |p| >= 16 {
      assert p[..16] == Frame(m)[..16] == Header(m);
      HeaderFields(m, p);
    }
  }

  // Sending: all of the frame goes out, or a strict prefix of it.
  method Send(m: Msg, plan: seq<Io>) returns (ok: bool, wire: seq<Byte>)
    requires Fits(m)
    ensures wire <= Frame(m) && (ok <==> wire == Frame(m))
    ensures Failed !in plan && Progress(plan) >= |Frame(m)| ==> ok
  {
    var h, used;
    ok, h, used := WriteAll(Header(m), plan);
    if !ok {
      assert Header(m) <= Frame(m);
      return false, h;
    }
    if |m.body| == 0 {
      assert Header(m) + m.body == Header(m);
      return true, h;
    }
    var b, more;
    ok, b, more := WriteAll(m.body, plan[used..]);
    wire := h + b;
    assert wire <= Frame(m) && (b == m.body <==> wire == Frame(m)) by {
      assert b == m.body[..|b|];
      assert wire == Frame(m)[..16 + |b|];
    }
  }

  // Receiving, under any schedule: a message is what the bytes decode to, and no more is taken from the
  // stream than its frame.
  method Receive(src: seq<Byte>, plan: seq<Io>) returns (ok: bool, m: Msg, rest: seq<Byte>)
    ensures ok ==> Recv(src) == Got(m, rest)
    ensures Failed !in plan && Moved(0) !in plan && Progress(plan) >= |src| && Recv(src).Got? ==> ok
  {
    m, rest := Msg(0, 0, []), src;
    var h, used;
    ok, h, used := ReadAll(src, 16, plan);
    if !ok { return; }
    assert h == src[..16];
    if h[0] != MAGIC_HI || h[1] != MAGIC_LO { return false, m, rest; }
    var req, blen := FromBe32(h[4..8]), FromBe32(h[8..12]);
    assert h[4..8] == src[4..8] && h[8..12] == src[8..12];
    if blen == 0 {
      assert src[16..16] == [];
      return true, Msg(h[3], req, []), src[16..];
    }
    if blen > MAX_BODY { return false, m, rest; }
    var b, more;
    ok, b, more := ReadAll(src[16..], blen, plan[used..]);
    if ok {
      assert b == src[16..][..blen] == src[16..16 + blen];
      return true, Msg(h[3], req, b), src[16 + blen..];
    }
  }
}
