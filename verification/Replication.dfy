// Replication from the leader's queue to one replica: which records arrive, and in what order.

module Replication {
  import opened Shared
  import opened Proto

  // ---- records and their wire form

  datatype Rec = Rec(table: seq<Byte>, lsn: nat, data: seq<Byte>)

  const MSG_REPLICATE: Byte := 3
  const HDR: nat := 152

  // A table name is a C string of at most 127 bytes.
  predicate FitsRec(r: Rec) {
    |r.table| <= 127 && 0 !in r.table && r.lsn < 0x1_0000_0000_0000_0000 && |r.data| + HDR < 0x1_0000_0000
  }

  function Zeros(n: nat): (r: seq<Byte>)
    ensures |r| == n && forall i :: 0 <= i < n ==> r[i] == 0
  {
    seq(n, i => 0)
  }

  function Le(v: nat, n: nat): (r: seq<Byte>)
    ensures |r| == n
  {
    if n == 0 then [] else [v % 256] + Le(v / 256, n - 1)
  }

  function FromLe(s: seq<Byte>): nat {
    if s == [] then 0 else s[0] + 256 * FromLe(s[1..])
  }

  function Pow256(n: nat): nat {
    if n == 0 then 1 else 256 * Pow256(n - 1)
  }

  lemma {:induction false} LeBack(v: nat, n: nat)
    requires v < Pow256(n)
    ensures FromLe(Le(v, n)) == v
  {
    if n > 0 {
      LeBack(v / 256, n - 1);
      assert Le(v, n)[1..] == Le(v / 256, n - 1);
    }
  }

  lemma Pow256Words()
    ensures Pow256(4) == 0x1_0000_0000 && Pow256(8) == 0x1_0000_0000_0000_0000
  {
    assert Pow256(2) == 65536;
    assert Pow256(6) == 256 * 256 * Pow256(4);
  }

  function Body(r: Rec): (b: seq<Byte>)
    requires FitsRec(r)
    ensures |b| == HDR + |r.data|
  {
    r.table + Zeros(128 - |r.table|) + Le(r.lsn, 8) + Zeros(8) + Le(|r.data|, 4) + Zeros(4) + r.data
  }

  function UpToZero(s: seq<Byte>): seq<Byte> {
    if s == [] || s[0] == 0 then [] else [s[0]] + UpToZero(s[1..])
  }

  // The replica's reading of a message body; nothing when its length does not match.
  function FromBody(b: seq<Byte>): Option<Rec> {
    if |b| < HDR || |b| - HDR != FromLe(b[144..148]) then None
    else Some(Rec(UpToZero(b[..128]), FromLe(b[128..136]), b[152..]))
  }

  lemma {:induction false} UpToZeroBack(t: seq<Byte>, rest: seq<Byte>)
    requires 0 !in t && rest != [] && rest[0] == 0
    ensures UpToZero(t + rest) == t
  {
    if t == [] {
      assert t + rest == rest;
    } else {
      assert (t + rest)[1..] == t[1..] + rest;
      UpToZeroBack(t[1..], rest);
    }
  }

  lemma BodyBack(r: Rec)
    requires FitsRec(r)
    ensures FromBody(Body(r)) == Some(r)
  {
    var b := Body(r);
    var z := Zeros(128 - |r.table|);
    assert b[..128] == r.table + z;
    UpToZeroBack(r.table, z);
    assert b[128..136] == Le(r.lsn, 8);
    assert b[144..148] == Le(|r.data|, 4);
    assert b[152..] == r.data;
    Pow256Words();
    LeBack(r.lsn, 8);
    LeBack(|r.data|, 4);
  }

  // The bytes of a body: the name filled up with zeros, number and length lowest byte first, and the data.
  lemma BodyBytes(r: Rec)
    requires FitsRec(r)
    ensures var b := Body(r);
            && b[..|r.table|] == r.table && (forall i :: |r.table| <= i < 128 ==> b[i] == 0)
            && r.lsn == Low(b[128..136]) && (forall i :: 136 <= i < 144 ==> b[i] == 0)
            && |r.data| == Low(b[144..148]) && (forall i :: 148 <= i < 152 ==> b[i] == 0) && b[152..] == r.data
  {
    var b := Body(r);
    assert b[128..136] == Le(r.lsn, 8) && b[144..148] == Le(|r.data|, 4);
    LeLow(r.lsn, 8);
    LeLow(|r.data|, 4);
    Pow256Words();
  }

  // The number whose digit of weight 256^k is byte k.
  function Low(s: seq<Byte>): nat {
    if s == [] then 0 else Low(s[..|s| - 1]) + s[|s| - 1] * Pow256(|s| - 1)
  }

  lemma {:induction false} LowCons(b: Byte, s: seq<Byte>)
    ensures Low([b] + s) == b + 256 * Low(s)
  {
    var all := [b] + s;
    if s == [] {
      assert all[..0] == [];
    } else {
      var n := |s| - 1;
      assert all[..n + 1] == [b] + s[..n];
      LowCons(b, s[..n]);
      assert all[n + 1] * Pow256(n + 1) == 256 * (s[n] * Pow256(n));
    }
  }

  lemma {:induction false} LeLow(v: nat, n: nat)
    requires v < Pow256(n)
    ensures Low(Le(v, n)) == v
  {
    if n > 0 {
      LeLow(v / 256, n - 1);
      LowCons(v % 256, Le(v / 256, n - 1));
    }
  }

  function MsgOf(r: Rec): (m: Msg)
    requires FitsRec(r)
    ensures Fits(m)
  {
    Msg(MSG_REPLICATE, r.lsn % 0x1_0000_0000, Body(r))
  }

  function FrameOf(r: Rec): (f: seq<Byte>)
    requires FitsRec(r)
    ensures f != []
  {
    Frame(MsgOf(r))
  }

  // ---- the ring

  const CAP: nat := 1024

  // The queue between the writer and the worker: head, tail and count over a ring of slots.
  class Ring {
    const slots: array<Rec>
    var head: nat
    var tail: nat
    var count: nat
    ghost var items: seq<Rec>        // what is queued, oldest first

    ghost predicate Valid()
      reads this, slots
    {
      && slots.Length == CAP && head < CAP && tail < CAP && count == |items| <= CAP
      && tail == Wrap(head + count)
      && forall i :: 0 <= i < count ==> slots[Wrap(head + i)] == items[i]
    }

    constructor ()
      ensures Valid() && items == [] && fresh(slots)
    {
      slots := new Rec[CAP](_ => Rec([], 0, []));
      head, tail, count, items := 0, 0, 0, [];
    }

    // A full queue drops the record.
    method Enqueue(r: Rec) returns (ok: bool)
      requires Valid()
      modifies this, slots
      ensures Valid() && ok == (|old(items)| < 1024) && items == if ok then old(items) + [r] else old(items)
    {
      if count >= CAP { return false; }
      slots[tail] := r;
      tail := (tail + 1) % CAP;
      count := count + 1;
      items := items + [r];
      return true;
    }

    method Dequeue() returns (r: Rec)
      requires Valid() && items != []
      modifies this
      ensures Valid() && old(items) == [r] + items
    {
      r := slots[head];
      head := (head + 1) % CAP;
      count := count - 1;
      items := items[1..];
    }
  }

  function Wrap(i: nat): (r: nat)
    requires i < 2 * CAP
    ensures r < CAP
  {
    if i < CAP then i else i - CAP
  }

  // ---- the system

  // What the worker is doing with the record of a given number: it has taken it from the queue, has some of
  // its frame still to write, or waits for the answer.
  datatype Worker = Idle | Taken(id: nat) | Sending(id: nat, todo: seq<Byte>) | Awaiting(id: nat) | Gone

  // accepted numbers the records put in the queue; those from next on are still queued. conns holds what the
  // replica has not yet read of each connection, in the order they were opened; the last is in use while
  // open. tags says which record was last put on each. log is what the replica has decoded, ids the numbers
  // of those records. lost: some record was dropped, given up on, or queued after the worker had left.
  // crossed: a connection was opened while a whole message lay unread on an older one.
  datatype State = State(
    running: bool, accepted: seq<Rec>, next: nat, worker: Worker, open: bool, conns: seq<seq<Byte>>,
    tags: seq<nat>, log: seq<Rec>, ids: seq<nat>, lost: bool, crossed: bool)

  datatype Event =
    | Enqueue(r: Rec)
    | Take
    | GiveUp                 // no connection, or no memory for the frame
    | Start                  // connects if need be, and builds the frame
    | Write(k: nat)          // one write call, k bytes
    | WriteFail
    | AckOk
    | AckFail
    | Read(c: nat)           // the replica's thread for connection c takes one message
    | Stop
    | Exit

  predicate Whole(s: seq<Byte>) {
    Recv(s).Got?
  }

  predicate Enabled(s: State, e: Event) {
    match e
    case Enqueue(r) => FitsRec(r)
    case Take => s.worker.Idle? && s.next < |s.accepted|
    case GiveUp => s.worker.Taken?
    case Start => s.worker.Taken? && s.worker.id < |s.accepted| && FitsRec(s.accepted[s.worker.id])
    case Write(k) => s.worker.Sending? && 0 < k <= |s.worker.todo| && s.conns != []
    case WriteFail => s.worker.Sending?
    case AckOk => s.worker.Awaiting? && s.conns != [] && s.conns[|s.conns| - 1] == []
    case AckFail => s.worker.Awaiting?
    case Read(c) => c < |s.conns| == |s.tags| && Whole(s.conns[c])
    case Stop => s.running
    case Exit => s.worker.Idle? && !s.running && s.next == |s.accepted|
  }

  function AfterStart(s: State): State
    requires Enabled(s, Start)
  {
    var id := s.worker.id;
    var s1 := s.(worker := Sending(id, FrameOf(s.accepted[id])));
    if s.open && |s.tags| > 0 then s1.(tags := s.tags[|s.tags| - 1 := id])
    else
      s1.(open := true, conns := s.conns + [[]], tags := s.tags + [id],
          crossed := s.crossed || exists c :: 0 <= c < |s.conns| && Whole(s.conns[c]))
  }

  function AfterRead(s: State, c: nat): State
    requires Enabled(s, Read(c))
  {
    var r := Recv(s.conns[c]);
    var s1 := s.(conns := s.conns[c := r.rest]);
    if r.m.kind == MSG_REPLICATE && FromBody(r.m.body).Some? then
      s1.(log := s.log + [FromBody(r.m.body).value], ids := s.ids + [s.tags[c]])
    else s1
  }

  function After(s: State, e: Event): State
    requires Enabled(s, e)
  {
    match e
    case Enqueue(r) =>
      if |s.accepted| - s.next >= CAP then s.(lost := true)
      else s.(accepted := s.accepted + [r], lost := s.lost || s.worker.Gone?)
    case Take => s.(worker := Taken(s.next), next := s.next + 1)
    case GiveUp => s.(worker := Idle, lost := true)
    case Start => AfterStart(s)
    case Write(k) =>
      var id, todo := s.worker.id, s.worker.todo;
      var n := |s.conns| - 1;
      s.(conns := s.conns[n := s.conns[n] + todo[..k]],
         worker := if k == |todo| then Awaiting(id) else Sending(id, todo[k..]))
    case WriteFail => s.(worker := Idle, open := false, lost := true)
    case AckOk => s.(worker := Idle)
    case AckFail => s.(worker := Idle, open := false, lost := true)
    case Read(c) => AfterRead(s, c)
    case Stop => s.(running := false)
    case Exit => s.(worker := Gone, open := false)
  }

  // ---- the invariant

  ghost predicate RecsFit(s: State) {
    forall i {:trigger s.accepted[i]} :: 0 <= i < |s.accepted| ==> FitsRec(s.accepted[i])
  }

  // On each connection lies, unread, at most the record last put on it, or a part of it; that record has not
  // been decoded.
  ghost predicate ConnOk(s: State, c: nat) {
    c < |s.conns| == |s.tags| ==>
      && s.tags[c] < s.next <= |s.accepted|
      && FitsRec(s.accepted[s.tags[c]])
      && s.conns[c] <= FrameOf(s.accepted[s.tags[c]])
      && (s.conns[c] != [] ==> s.tags[c] !in s.ids)
  }

  ghost predicate WorkerOk(s: State) {
    match s.worker
    case Idle => s.open ==> s.conns != [] && s.conns[|s.conns| - 1] == []
    case Taken(id) =>
      && id + 1 == s.next && id !in s.ids && id !in s.tags
      && (s.open ==> s.conns != [] && s.conns[|s.conns| - 1] == [])
    case Sending(id, todo) =>
      && id + 1 == s.next <= |s.accepted| && id !in s.ids && s.open && s.conns != [] && |s.conns| == |s.tags|
      && FitsRec(s.accepted[id]) && todo != []
      && s.tags[|s.tags| - 1] == id && s.conns[|s.conns| - 1] + todo == FrameOf(s.accepted[id])
    case Awaiting(id) =>
      && id + 1 == s.next <= |s.accepted| && s.open && s.conns != [] && |s.conns| == |s.tags|
      && FitsRec(s.accepted[id]) && s.tags[|s.tags| - 1] == id
      && (s.conns[|s.conns| - 1] == FrameOf(s.accepted[id]) || (s.conns[|s.conns| - 1] == [] && id in s.ids))
    case Gone => !s.open && !s.running && (s.lost || s.next == |s.accepted|)
  }

  // The replica's log is the records of the numbers ids, each at most once.
  ghost predicate LogOk(s: State) {
    && |s.log| == |s.ids|
    && (forall k {:trigger s.ids[k]} :: 0 <= k < |s.ids| ==>
        s.ids[k] < s.next <= |s.accepted| && s.log[k] == s.accepted[s.ids[k]])
    && (forall k, l :: 0 <= k < l < |s.ids| ==> s.ids[k] != s.ids[l])
  }

  ghost predicate Core(s: State) {
    && RecsFit(s) && LogOk(s) && WorkerOk(s) && |s.conns| == |s.tags|
    && s.next <= |s.accepted| <= s.next + CAP
    && (forall c: nat {:trigger ConnOk(s, c)} :: ConnOk(s, c))
    && (forall c, d :: 0 <= c < d < |s.tags| ==> s.tags[c] < s.tags[d])
  }

  // ---- every step keeps it

  // A whole message on a connection is the whole frame of its record, and decodes to it.
  lemma WholeFrame(r: Rec, p: seq<Byte>)
    requires FitsRec(r) && p <= FrameOf(r) && Whole(p)
    ensures p == FrameOf(r) && Recv(p) == Got(MsgOf(r), []) && FromBody(MsgOf(r).body) == Some(r)
  {
    var m := MsgOf(r);
    assert p + [] == p;
    if |m.body| > MAX_BODY {
      OversizeFrame(m, p);
    } else if p != Frame(m) {
      CutFrame(m, p);
    }
    FrameBack(m, []);
    BodyBack(r);
  }

  lemma OversizeFrame(m: Msg, p: seq<Byte>)
    requires Fits(m) && |m.body| > MAX_BODY && p <= Frame(m)
    ensures !Whole(p)
  {
    if |p| >= 16 {
      assert p[..16] == Frame(m)[..16] == Header(m);
      HeaderFields(m, p);
    }
  }

  // One more record at the end of the queue.
  lemma Longer(s: State, r: Rec)
    requires Core(s) && FitsRec(r) && |s.accepted| - s.next < CAP
    ensures Core(s.(accepted := s.accepted + [r], lost := s.lost || s.worker.Gone?))
  {
    var s' := s.(accepted := s.accepted + [r], lost := s.lost || s.worker.Gone?);
    assert forall i :: 0 <= i < |s.accepted| ==> s'.accepted[i] == s.accepted[i];
    forall c: nat ensures ConnOk(s', c) { assert ConnOk(s, c); }
    assert WorkerOk(s');
    assert LogOk(s');
  }

  lemma EnqueueKept(s: State, r: Rec)
    requires Core(s) && Enabled(s, Enqueue(r))
    ensures Core(After(s, Enqueue(r)))
  {
    if |s.accepted| - s.next < CAP {
      Longer(s, r);
    } else {
      forall c: nat ensures ConnOk(s.(lost := true), c) { assert ConnOk(s, c); }
    }
  }

  lemma StartKept(s: State)
    requires Core(s) && Enabled(s, Start)
    ensures Core(AfterStart(s))
  {
    hide FrameOf, FitsRec, Whole;
    var s' := AfterStart(s);
    var id := s.worker.id;
    forall c | 0 <= c < |s.tags| ensures s.tags[c] < id { assert ConnOk(s, c); }
    forall c: nat ensures ConnOk(s', c) {
      assert ConnOk(s, c);
      StartConn(s, c);
    }
  }

  lemma StartConn(s: State, c: nat)
    requires Core(s) && Enabled(s, Start) && ConnOk(s, c)
    ensures ConnOk(AfterStart(s), c)
  {
    hide Whole;
  }

  lemma WriteKept(s: State, k: nat)
    requires Core(s) && Enabled(s, Write(k))
    ensures Core(After(s, Write(k)))
  {
    var s' := After(s, Write(k));
    var n := |s.conns| - 1;
    var id, todo := s.worker.id, s.worker.todo;
    assert todo == todo[..k] + todo[k..];
    assert s'.conns[n] + todo[k..] == s.conns[n] + todo;
    assert k == |todo| ==> todo[..k] == todo;
    forall c: nat ensures ConnOk(s', c) { assert ConnOk(s, c); }
  }

  lemma ReadEffect(s: State, c: nat)
    requires Core(s) && Enabled(s, Read(c))
    ensures var id := s.tags[c];
            && id < |s.accepted| && id < s.next && FitsRec(s.accepted[id]) && id !in s.ids
            && s.conns[c] == FrameOf(s.accepted[id])
            && AfterRead(s, c) == s.(conns := s.conns[c := []], log := s.log + [s.accepted[id]], ids := s.ids + [id])
  {
    assert ConnOk(s, c);
    WholeFrame(s.accepted[s.tags[c]], s.conns[c]);
  }

  // The state after the record of connection c was decoded.
  function Decoded(s: State, c: nat): State
    requires c < |s.conns| == |s.tags| && s.tags[c] < |s.accepted|
  {
    var id := s.tags[c];
    s.(conns := s.conns[c := []], log := s.log + [s.accepted[id]], ids := s.ids + [id])
  }

  // The worker is not in the middle of a whole message.
  lemma DecodedWorker(s: State, c: nat)
    requires WorkerOk(s) && c < |s.conns| == |s.tags| && s.tags[c] < |s.accepted|
    requires FitsRec(s.accepted[s.tags[c]]) && s.conns[c] == FrameOf(s.accepted[s.tags[c]])
    requires forall d :: 0 <= d < |s.tags| && d != c ==> s.tags[d] != s.tags[c]
    ensures WorkerOk(Decoded(s, c))
  {
    hide FrameOf, FitsRec;
    var n := |s.conns| - 1;
    assert s.tags[c] in s.tags;
    if s.worker.Sending? {
      assert |s.conns[n] + s.worker.todo| > |s.conns[n]|;
    }
  }

  lemma ReadWorker(s: State, c: nat)
    requires Core(s) && Enabled(s, Read(c))
    ensures WorkerOk(AfterRead(s, c))
  {
    ReadEffect(s, c);
    DecodedWorker(s, c);
  }

  lemma ReadKept(s: State, c: nat)
    requires Core(s) && Enabled(s, Read(c))
    ensures Core(AfterRead(s, c))
  {
    ReadWorker(s, c);
    ReadEffect(s, c);
    var id := s.tags[c];
    var s' := s.(conns := s.conns[c := []], log := s.log + [s.accepted[id]], ids := s.ids + [id]);
    forall d: nat ensures ConnOk(s', d) {
      assert ConnOk(s, d);
      if d < |s.tags| && d != c { assert s.tags[d] != id; }
    }
  }

  lemma TakeKept(s: State)
    requires Core(s) && Enabled(s, Take)
    ensures Core(After(s, Take))
  {
    forall c: nat ensures ConnOk(After(s, Take), c) { assert ConnOk(s, c); }
    forall c | 0 <= c < |s.tags| ensures s.tags[c] != s.next { assert ConnOk(s, c); }
  }

  // Steps that touch neither queue nor connections.
  lemma WorkerKept(s: State, e: Event)
    requires Core(s) && Enabled(s, e) && !e.Enqueue? && !e.Take? && !e.Start? && !e.Write? && !e.Read?
    ensures Core(After(s, e))
  {
    hide FrameOf, FitsRec, Whole;
    forall c: nat ensures ConnOk(After(s, e), c) { assert ConnOk(s, c); }
  }

  lemma CoreKept(s: State, e: Event)
    requires Core(s) && Enabled(s, e)
    ensures Core(After(s, e))
  {
    match e
    case Enqueue(r) => EnqueueKept(s, r);
    case Take => TakeKept(s);
    case Start => StartKept(s);
    case Write(k) => WriteKept(s, k);
    case Read(c) => ReadKept(s, c);
    case _ => WorkerKept(s, e);
  }

  // ---- the order of arrival

  ghost predicate Rising(ids: seq<nat>) {
    forall k, l :: 0 <= k < l < |ids| ==> ids[k] < ids[l]
  }

  ghost predicate Ordered(s: State) {
    !s.crossed ==>
      && Rising(s.ids)
      && (forall c {:trigger s.conns[c]} :: 0 <= c < |s.conns| - 1 ==> !Whole(s.conns[c]))
      && (s.tags == [] ==> s.ids == [])
      && (forall k {:trigger s.ids[k]} :: 0 <= k < |s.ids| && s.tags != [] ==> s.ids[k] <= s.tags[|s.tags| - 1])
  }

  lemma OrderedStart(s: State)
    requires Core(s) && Ordered(s) && Enabled(s, Start)
    ensures Ordered(AfterStart(s))
  {
    var s' := AfterStart(s);
    var id := s.worker.id;
    forall k {:trigger s'.ids[k]} | 0 <= k < |s'.ids| ensures s'.ids[k] <= id { assert s.ids[k] in s.ids; }
    if !s'.crossed && s'.conns != s.conns {
      forall c {:trigger s'.conns[c]} | 0 <= c < |s'.conns| - 1 ensures !Whole(s'.conns[c]) {
        assert s'.conns[c] == s.conns[c];
      }
    }
  }

  lemma OrderedRead(s: State, c: nat)
    requires Core(s) && Ordered(s) && Enabled(s, Read(c))
    ensures Ordered(AfterRead(s, c))
  {
    hide FrameOf, FitsRec, AfterRead;
    ReadEffect(s, c);
    var id := s.tags[c];
    if !s.crossed {
      assert c == |s.conns| - 1;
      forall k | 0 <= k < |s.ids| ensures s.ids[k] < id { assert s.ids[k] in s.ids; }
      RisingMore(s.ids, id);
      var s' := s.(conns := s.conns[c := []], log := s.log + [s.accepted[id]], ids := s.ids + [id]);
      forall d {:trigger s'.conns[d]} | 0 <= d < |s'.conns| - 1 ensures !Whole(s'.conns[d]) {
        assert s'.conns[d] == s.conns[d];
      }
    }
  }

  lemma RisingMore(ids: seq<nat>, id: nat)
    requires Rising(ids) && forall k :: 0 <= k < |ids| ==> ids[k] < id
    ensures Rising(ids + [id])
  {
  }

  lemma OrderedKept(s: State, e: Event)
    requires Core(s) && Ordered(s) && Enabled(s, e)
    ensures Ordered(After(s, e))
  {
    hide Core, FrameOf, FitsRec;
    if e.Start? {
      OrderedStart(s);
    } else if e.Read? {
      OrderedRead(s, e.c);
    } else if e.Write? {
      OrderedWrite(s, e.k);
    } else {
      assert After(s, e).ids == s.ids && After(s, e).tags == s.tags && After(s, e).conns == s.conns;
    }
  }

  lemma OrderedWrite(s: State, k: nat)
    requires Core(s) && Ordered(s) && Enabled(s, Write(k))
    ensures Ordered(After(s, Write(k)))
  {
    var s' := After(s, Write(k));
    assert s'.ids == s.ids && s'.tags == s.tags;
    forall c {:trigger s'.conns[c]} | 0 <= c < |s'.conns| - 1 ensures s'.conns[c] == s.conns[c] { }
  }

  // ---- nothing lost

  function Upto(n: nat): (r: seq<nat>)
    ensures |r| == n && forall i :: 0 <= i < n ==> r[i] == i
  {
    seq(n, i => i)
  }

  // While nothing has been lost there is one connection at most, and everything taken from the queue has
  // been decoded, but for the record in hand.
  ghost predicate Complete(s: State) {
    !s.lost ==>
      && |s.conns| <= 1 && (s.conns != [] && !s.worker.Gone? ==> s.open)
      && (match s.worker
          case Idle => s.ids == Upto(s.next)
          case Taken(id) => s.ids == Upto(id)
          case Sending(id, _) => s.ids == Upto(id)
          case Awaiting(id) => s.conns != [] && s.ids == if s.conns[0] == [] then Upto(id + 1) else Upto(id)
          case Gone => s.ids == Upto(s.next) && forall c :: 0 <= c < |s.conns| ==> s.conns[c] == [])
  }

  lemma CompleteRead(s: State, c: nat)
    requires Core(s) && Complete(s) && Enabled(s, Read(c))
    ensures Complete(AfterRead(s, c))
  {
    hide FrameOf, FitsRec, AfterRead;
    if s.worker.Sending? { assert |s.conns[|s.conns| - 1]| < |FrameOf(s.accepted[s.worker.id])|; }
    ReadEffect(s, c);
    if !s.lost {
      assert c == 0 && |s.conns| == 1;
      assert s.worker.Awaiting?;
      assert Upto(s.worker.id + 1) == Upto(s.worker.id) + [s.worker.id];
    }
  }

  lemma CompleteWrite(s: State, k: nat)
    requires Core(s) && Complete(s) && Enabled(s, Write(k))
    ensures Complete(After(s, Write(k)))
  {
    hide FrameOf, FitsRec, Whole;
    var s' := After(s, Write(k));
    assert !s.lost ==> |s.conns| == 1 && s'.conns[0] != [];
  }

  lemma CompleteKept(s: State, e: Event)
    requires Core(s) && Complete(s) && Enabled(s, e)
    ensures Complete(After(s, e))
  {
    hide FrameOf, FitsRec, Whole, AfterRead, Upto, LogOk;
    if e.Read? { CompleteRead(s, e.c); }
    if e.Write? { CompleteWrite(s, e.k); }
  }

  // ---- whole runs

  ghost predicate Initial(s: State) {
    s == State(true, [], 0, Idle, false, [], [], [], [], false, false)
  }

  ghost predicate Run(s: State, es: seq<Event>, s': State)
    decreases |es|
  {
    if es == [] then s' == s else Enabled(s, es[0]) && Run(After(s, es[0]), es[1..], s')
  }

  lemma {:induction false} RunKept(s: State, es: seq<Event>, s': State)
    requires Core(s) && Ordered(s) && Complete(s) && Run(s, es, s')
    ensures Core(s') && Ordered(s') && Complete(s')
    decreases |es|
  {
    if es != [] {
      CoreKept(s, es[0]);
      OrderedKept(s, es[0]);
      CompleteKept(s, es[0]);
      RunKept(After(s, es[0]), es[1..], s');
    }
  }

  // b without some of its elements is a.
  ghost predicate Subsequence(a: seq<Rec>, b: seq<Rec>) {
    exists at: seq<nat> :: |at| == |a| && Rising(at) && forall k :: 0 <= k < |a| ==> at[k] < |b| && a[k] == b[at[k]]
  }

  // Under every schedule: what the replica has decoded are records that were queued, none of them twice;
  // they come in queue order, unless a connection was ever opened while a whole message lay unread on an
  // older one; and once the worker has left, all of them have come, unless one was given up on.
  lemma Delivery(s: State, es: seq<Event>, s': State)
    requires Initial(s) && Run(s, es, s')
    ensures |s'.ids| == |s'.log| && forall k :: 0 <= k < |s'.ids| ==>
        s'.ids[k] < |s'.accepted| && s'.log[k] == s'.accepted[s'.ids[k]]
    ensures forall k, l :: 0 <= k < l < |s'.ids| ==> s'.ids[k] != s'.ids[l]
    ensures !s'.crossed ==> Subsequence(s'.log, s'.accepted)
    ensures !s'.lost && s'.worker.Gone? ==> s'.log == s'.accepted
  {
    hide FrameOf, FitsRec, Run, Subsequence;
    assert Core(s) by { forall c: nat ensures ConnOk(s, c) { } }
    RunKept(s, es, s');
    hide Complete, Ordered, WorkerOk, ConnOk;
    if !s'.crossed { ArrivedInOrder(s'); }
    if !s'.lost && s'.worker.Gone? { ArrivedAll(s'); }
  }

  lemma ArrivedInOrder(s: State)
    requires LogOk(s) && Ordered(s) && !s.crossed
    ensures Subsequence(s.log, s.accepted)
  {
    assert Rising(s.ids);
  }

  lemma ArrivedAll(s: State)
    requires LogOk(s) && WorkerOk(s) && Complete(s) && !s.lost && s.worker.Gone?
    ensures s.log == s.accepted
  {
    assert s.ids == Upto(|s.accepted|);
    forall k | 0 <= k < |s.log| ensures s.log[k] == s.accepted[k] { assert s.ids[k] == k; }
  }

  // A record is lost by exactly these steps: one is queued behind 1024 others or after the worker has left, or the
  // worker gives one up: it has no connection for it, or writing it or waiting for its answer fails.
  lemma LostIff(s: State, e: Event)
    requires Core(s) && Enabled(s, e) && !s.lost
    ensures After(s, e).lost <==>
            || (e.Enqueue? && (|s.accepted| - s.next == 1024 || s.worker.Gone?))
            || e.GiveUp? || e.WriteFail? || e.AckFail?
    ensures e.Enqueue? && |s.accepted| - s.next < 1024 ==> After(s, e).accepted == s.accepted + [e.r]
  {
    hide FrameOf, FitsRec, Whole;
    if e.Read? { ReadEffect(s, e.c); }
  }

  // A worker that has not left, and has something to do, can go on with it without losing a record, or its replica
  // can, as long as the record in hand is within what a message may hold.
  lemma GetsOn(s: State) returns (e: Event)
    requires Core(s) && !s.worker.Gone? && (s.worker.Idle? ==> s.next < |s.accepted| || !s.running)
    requires s.worker.Awaiting? ==> |Body(s.accepted[s.worker.id])| <= 0x400_0000
    ensures Enabled(s, e) && !e.Enqueue? && !e.GiveUp? && !e.WriteFail? && !e.AckFail?
  {
    match s.worker
    case Idle => e := if s.next < |s.accepted| then Take else Exit;
    case Taken(id) => e := Start;
    case Sending(id, todo) => e := Write(|todo|);
    case Awaiting(id) =>
      var n := |s.conns| - 1;
      if s.conns[n] == [] {
        e := AckOk;
      } else {
        assert s.conns[n] == FrameOf(s.accepted[id]);
        FrameBack(MsgOf(s.accepted[id]), []);
        assert FrameOf(s.accepted[id]) + [] == FrameOf(s.accepted[id]);
        e := Read(n);
      }
  }

  // ---- out of order after all

  // One record stays unread on a connection whose answer the leader has given up waiting for; the next goes
  // out on a new connection and is decoded first.
  lemma SentOne(s: State, r: Rec, s5: State)
    requires FitsRec(r) && |Body(r)| <= MAX_BODY && Initial(s)
    requires s5 == State(true, [r], 1, Idle, false, [FrameOf(r)], [0], [], [], true, false)
    ensures Run(s, [Enqueue(r), Take, Start, Write(|FrameOf(r)|), AckFail], s5)
  {
    var f := FrameOf(r);
    var s1 := s.(accepted := [r]);
    var s2 := s1.(worker := Taken(0), next := 1);
    var s3 := s2.(worker := Sending(0, f), open := true, conns := [[]], tags := [0]);
    var s4 := s3.(worker := Awaiting(0), conns := [f]);
    assert After(s, Enqueue(r)) == s1;
    assert After(s1, Take) == s2;
    assert After(s2, Start) == s3;
    assert f[..|f|] == f && [] + f == f;
    assert After(s3, Write(|f|)) == s4;
    assert After(s4, AckFail) == s5;
    assert Run(s4, [AckFail], s5);
    RunMore(s3, Write(|f|), s4, [AckFail], s5);
    RunMore(s2, Start, s3, [Write(|f|), AckFail], s5);
    RunMore(s1, Take, s2, [Start, Write(|f|), AckFail], s5);
    RunMore(s, Enqueue(r), s1, [Take, Start, Write(|f|), AckFail], s5);
  }

  lemma RunMore(s: State, e: Event, s1: State, es: seq<Event>, s': State)
    requires Enabled(s, e) && After(s, e) == s1 && Run(s1, es, s')
    ensures Run(s, [e] + es, s')
  {
    assert ([e] + es)[1..] == es;
  }

  lemma SentTwo(s5: State, r: Rec, q: Rec, s9: State)
    requires FitsRec(r) && FitsRec(q) && |Body(r)| <= MAX_BODY
    requires s5 == State(true, [r], 1, Idle, false, [FrameOf(r)], [0], [], [], true, false)
    requires s9 == State(true, [r, q], 2, Awaiting(1), true, [FrameOf(r), FrameOf(q)], [0, 1], [], [], true, true)
    ensures Run(s5, [Enqueue(q), Take, Start, Write(|FrameOf(q)|)], s9)
  {
    var f, g := FrameOf(r), FrameOf(q);
    var s6 := s5.(accepted := [r, q]);
    var s7 := s6.(worker := Taken(1), next := 2);
    var s8 := s7.(worker := Sending(1, g), open := true, conns := [f, []], tags := [0, 1], crossed := true);
    assert After(s5, Enqueue(q)) == s6;
    assert After(s6, Take) == s7;
    WholeBack(r);
    assert s7.conns[0] == f;
    assert After(s7, Start) == s8;
    assert g[..|g|] == g && [] + g == g;
    assert After(s8, Write(|g|)) == s9;
    assert Run(s8, [Write(|g|)], s9) by { RunMore(s8, Write(|g|), s9, [], s9); }
    RunMore(s7, Start, s8, [Write(|g|)], s9);
    RunMore(s6, Take, s7, [Start, Write(|g|)], s9);
    RunMore(s5, Enqueue(q), s6, [Take, Start, Write(|g|)], s9);
  }

  lemma ReadBoth(s9: State, r: Rec, q: Rec, s11: State)
    requires FitsRec(r) && FitsRec(q) && |Body(r)| <= MAX_BODY && |Body(q)| <= MAX_BODY
    requires s9 == State(true, [r, q], 2, Awaiting(1), true, [FrameOf(r), FrameOf(q)], [0, 1], [], [], true, true)
    requires s11 == State(true, [r, q], 2, Awaiting(1), true, [[], []], [0, 1], [q, r], [1, 0], true, true)
    ensures Run(s9, [Read(1), Read(0)], s11)
  {
    var s10 := s9.(conns := [FrameOf(r), []], log := [q], ids := [1]);
    WholeBack(r);
    WholeBack(q);
    assert s9.conns[1] == FrameOf(q) && s10.conns[0] == FrameOf(r);
    assert After(s9, Read(1)) == s10;
    assert After(s10, Read(0)) == s11;
    RunMore(s10, Read(0), s11, [], s11);
    RunMore(s9, Read(1), s10, [Read(0)], s11);
  }

  lemma WholeBack(r: Rec)
    requires FitsRec(r) && |Body(r)| <= MAX_BODY
    ensures Recv(FrameOf(r)) == Got(MsgOf(r), []) && FromBody(MsgOf(r).body) == Some(r)
  {
    FrameBack(MsgOf(r), []);
    BodyBack(r);
    assert FrameOf(r) + [] == FrameOf(r);
  }

  lemma {:induction false} RunJoin(s: State, es: seq<Event>, t: State, fs: seq<Event>, u: State)
    requires Run(s, es, t) && Run(t, fs, u)
    ensures Run(s, es + fs, u)
    decreases |es|
  {
    if es == [] {
      assert es + fs == fs;
    } else {
      assert (es + fs)[1..] == es[1..] + fs;
      RunJoin(After(s, es[0]), es[1..], t, fs, u);
    }
  }

  // So any two records can arrive the other way round.
  lemma CanCross(r: Rec, q: Rec)
    requires FitsRec(r) && FitsRec(q) && |Body(r)| <= MAX_BODY && |Body(q)| <= MAX_BODY
    ensures exists s: State, es: seq<Event>, s': State ::
              Initial(s) && Run(s, es, s') && s'.accepted == [r, q] && s'.log == [q, r]
  {
    var s := State(true, [], 0, Idle, false, [], [], [], [], false, false);
    var s5 := State(true, [r], 1, Idle, false, [FrameOf(r)], [0], [], [], true, false);
    var s11 := State(true, [r, q], 2, Awaiting(1), true, [[], []], [0, 1], [q, r], [1, 0], true, true);
    SentOne(s, r, s5);
    CrossRest(s5, r, q, s11);
    var fs: seq<Event> :| Run(s5, fs, s11);
    RunJoin(s, [Enqueue(r), Take, Start, Write(|FrameOf(r)|), AckFail], s5, fs, s11);
  }

  lemma CrossRest(s5: State, r: Rec, q: Rec, s11: State)
    requires FitsRec(r) && FitsRec(q) && |Body(r)| <= MAX_BODY && |Body(q)| <= MAX_BODY
    requires s5 == State(true, [r], 1, Idle, false, [FrameOf(r)], [0], [], [], true, false)
    requires s11 == State(true, [r, q], 2, Awaiting(1), true, [[], []], [0, 1], [q, r], [1, 0], true, true)
    ensures exists fs: seq<Event> :: Run(s5, fs, s11)
  {
    var s9 := State(true, [r, q], 2, Awaiting(1), true, [FrameOf(r), FrameOf(q)], [0, 1], [], [], true, true);
    SentTwo(s5, r, q, s9);
    ReadBoth(s9, r, q, s11);
    RunJoin(s5, [Enqueue(q), Take, Start, Write(|FrameOf(q)|)], s9, [Read(1), Read(0)], s11);
  }
}
