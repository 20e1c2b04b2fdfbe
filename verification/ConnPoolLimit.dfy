// The number of sessions of one connection: which step takes it past the limit, and runs that never do.

module ConnPoolLimit {
  import opened Shared
  import opened ConnPool
  import opened ConnPoolRuns

  // ---- when acquire opens one more

  // No slot of this connection and configuration is idle.
  ghost predicate NoneIdle(slots: seq<Slot>, conn: nat, fp: nat, i: nat) {
    forall k {:trigger slots[k]} :: i <= k < |slots| && Is(slots[k], conn, Labelled(fp)) ==> slots[k].leased
  }

  ghost predicate OnlyLeased(slots: seq<Slot>, conn: nat, i: nat) {
    forall k {:trigger slots[k]} :: i <= k < |slots| && slots[k].used && slots[k].conn == conn ==> slots[k].leased
  }

  // The scan comes back without a slot to reuse exactly if none is idle, and then every slot it leaves to the
  // connection is on lease.
  lemma {:induction false} ScanNone(slots: seq<Slot>, conn: nat, fp: nat, i: nat, mine: nat, dead: Option<nat>)
    requires i <= |slots|
    ensures var r := Scan(slots, conn, fp, i, mine, dead);
            && |r.slots| == |slots| && r.slots[..i] == slots[..i]
            && (r.Searched? && r.dead.None? <==> dead.None? && NoneIdle(slots, conn, fp, i))
            && (r.Searched? && r.dead.None? ==> OnlyLeased(r.slots, conn, i))
    decreases |slots| - i
  {
    if i < |slots| {
      var s := slots[i];
      var r := Scan(slots, conn, fp, i, mine, dead);
      if !s.used || s.conn != conn {
        ScanNone(slots, conn, fp, i + 1, mine, dead);
        assert r.slots[i] == r.slots[..i + 1][i] == slots[..i + 1][i];
      } else if s.fp != fp {
        var slots' := if s.leased then slots else slots[i := EMPTY];
        ScanNone(slots', conn, fp, i + 1, mine, dead);
        assert r.slots[i] == r.slots[..i + 1][i] == slots'[..i + 1][i];
        assert r.slots[..i] == r.slots[..i + 1][..i] == slots'[..i + 1][..i] == slots[..i];
        assert NoneIdle(slots', conn, fp, i + 1) <==> NoneIdle(slots, conn, fp, i);
      } else if s.leased {
        ScanNone(slots, conn, fp, i + 1, mine + 1, dead);
        assert r.slots[i] == r.slots[..i + 1][i] == slots[..i + 1][i];
      } else if s.inst.None? {
        ScanNone(slots, conn, fp, i + 1, mine + 1, if dead.None? then Some(i) else dead);
      }
    }
  }

  // A caller asks for a connection with as many slots on lease as it may have, not all of them, however,
  // labelled with its configuration; nor is one of these idle; and there is room in the pool.
  ghost predicate Crowded(s: State, t: nat) {
    && t < |s.threads| && s.threads[t].Acquiring?
    && var th := s.threads[t];
       && NoneIdle(s.slots, th.conn, th.fp, 0)
       && Tally(s.slots, th.conn, Labelled(th.fp)) < s.maxPer <= Tally(s.slots, th.conn, Leased)
       && exists i {:trigger s.slots[i]} :: 0 <= i < |s.slots| && !s.slots[i].leased
  }

  // What the scan leaves, slot by slot.
  lemma Left(s: State, conn: nat, fp: nat)
    requires Core(s) && fp != 0
    ensures var r := Scan(s.slots, conn, fp, 0, 0, None);
            && |r.slots| == |s.slots|
            && (r.Searched? ==> forall k {:trigger r.slots[k]} :: 0 <= k < |s.slots| ==>
                  r.slots[k] == s.slots[k] ||
                  (!s.slots[k].leased && s.slots[k].conn == conn && s.slots[k].fp != fp && r.slots[k] == EMPTY))
            && forall k {:trigger r.slots[k]} :: 0 <= k < |s.slots| && r.slots[k].used ==>
                 s.slots[k].used && r.slots[k].conn == s.slots[k].conn
  {
    SweptKept(s, conn, fp);
    var r := Scan(s.slots, conn, fp, 0, 0, None);
    forall k {:trigger r.slots[k]} | 0 <= k < |s.slots|
      ensures ScanSlot(s.slots[k], r.slots[k], conn, fp, r.Found? && r.i == k)
    {
    }
  }

  // The counts of acquire: its own are those labelled so before, all are those on lease before.
  lemma LeftCounts(s: State, conn: nat, fp: nat)
    requires Core(s) && fp != 0 && NoneIdle(s.slots, conn, fp, 0)
    ensures var r := Scan(s.slots, conn, fp, 0, 0, None);
            && r.Searched? && r.dead.None? && OnlyLeased(r.slots, conn, 0)
            && r.mine == Tally(s.slots, conn, Labelled(fp))
            && Tally(r.slots, conn, Used) == Tally(s.slots, conn, Leased)
  {
    var r := Scan(s.slots, conn, fp, 0, 0, None);
    ScanNone(s.slots, conn, fp, 0, 0, None);
    Left(s, conn, fp);
    assert s.slots[..0] == [] && Tally([], conn, Labelled(fp)) == 0;
    ScanCounts(s.slots, conn, fp, 0, 0, None);
    forall k | 0 <= k < |s.slots|
      ensures Is(r.slots[k], conn, Labelled(fp)) <==> Is(s.slots[k], conn, Labelled(fp))
      ensures Is(r.slots[k], conn, Used) <==> Is(s.slots[k], conn, Leased)
    {
      assert SlotOk(s.slots[k]);
      assert r.slots[k] == s.slots[k] || r.slots[k] == EMPTY;
    }
    TallyLess(s.slots, Labelled(fp), r.slots, Labelled(fp), conn);
    TallyLess(r.slots, Labelled(fp), s.slots, Labelled(fp), conn);
    TallyLess(s.slots, Leased, r.slots, Used, conn);
    TallyLess(r.slots, Used, s.slots, Leased, conn);
  }

  lemma ReserveUsed(s: State, slots: seq<Slot>, t: nat, i: nat, conn: nat, fp: nat, c: nat)
    requires t < |s.threads| && i < |slots|
    ensures Tally(Reserve(s, slots, t, i, conn, fp).slots, c, Used) + (if Is(slots[i], c, Used) then 1 else 0) ==
            Tally(slots, c, Used) + (if c == conn then 1 else 0)
  {
    TallySet(slots, i, Reserve(s, slots, t, i, conn, fp).slots[i], c, Used);
  }

  // Where a slot is there to be reused, or another connection is asked about, the count does not grow.
  lemma AcquireNoMore(s: State, t: nat, victim: nat, throttled: bool, c: nat)
    requires Inv(s) && Enabled(s, Acquire(t, victim, throttled))
    requires !NoneIdle(s.slots, s.threads[t].conn, s.threads[t].fp, 0) || s.threads[t].conn != c
    ensures Tally(AfterAcquire(s, t, victim, throttled).slots, c, Used) <= Tally(s.slots, c, Used)
  {
    var th := s.threads[t];
    assert ThreadOk(s.slots, th);
    SweptKept(s, th.conn, th.fp);
    ScanNone(s.slots, th.conn, th.fp, 0, 0, None);
    Left(s, th.conn, th.fp);
    var r := Scan(s.slots, th.conn, th.fp, 0, 0, None);
    TallyLess(s.slots, Used, r.slots, Used, c);
    if r.Searched? {
      if r.dead.Some? {
        if !throttled { ReserveUsed(s, r.slots, t, r.dead.value, th.conn, th.fp, c); }
      } else if r.mine < s.maxPer && FirstUnused(r.slots) < |r.slots| {
        ReserveUsed(s, r.slots, t, FirstUnused(r.slots), th.conn, th.fp, c);
      } else if r.mine < s.maxPer && Evictable(r.slots, victim) {
        TallySet(r.slots, victim, EMPTY, c, Used);
        ReserveUsed(s, r.slots[victim := EMPTY], t, victim, th.conn, th.fp, c);
      }
    }
  }

  // There is room exactly if some slot was not on lease.
  lemma Room(s: State, t: nat, victim: nat, throttled: bool)
    requires Inv(s) && Enabled(s, Acquire(t, victim, throttled)) && FairPick(s, Acquire(t, victim, throttled))
    requires NoneIdle(s.slots, s.threads[t].conn, s.threads[t].fp, 0)
    ensures var r := Scan(s.slots, s.threads[t].conn, s.threads[t].fp, 0, 0, None);
            FirstUnused(r.slots) < |r.slots| || Evictable(r.slots, victim) <==>
            exists i {:trigger s.slots[i]} :: 0 <= i < |s.slots| && !s.slots[i].leased
  {
    var th := s.threads[t];
    assert ThreadOk(s.slots, th);
    LeftCounts(s, th.conn, th.fp);
    Left(s, th.conn, th.fp);
    var r := Scan(s.slots, th.conn, th.fp, 0, 0, None);
    if FirstUnused(r.slots) < |r.slots| {
      assert SlotOk(s.slots[FirstUnused(r.slots)]);
    } else if Evictable(r.slots, victim) {
      assert !s.slots[victim].leased;
    } else if i :| 0 <= i < |s.slots| && !s.slots[i].leased {
      assert r.slots[i].used;
      assert Evictable(r.slots, i);
    }
  }

  lemma AcquireOneMore(s: State, t: nat, victim: nat, throttled: bool)
    requires Inv(s) && Enabled(s, Acquire(t, victim, throttled)) && FairPick(s, Acquire(t, victim, throttled))
    requires NoneIdle(s.slots, s.threads[t].conn, s.threads[t].fp, 0)
    ensures var conn := s.threads[t].conn;
            var more := Tally(s.slots, conn, Labelled(s.threads[t].fp)) < s.maxPer &&
                        exists i {:trigger s.slots[i]} :: 0 <= i < |s.slots| && !s.slots[i].leased;
            Tally(AfterAcquire(s, t, victim, throttled).slots, conn, Used) ==
            Tally(s.slots, conn, Leased) + if more then 1 else 0
  {
    var th := s.threads[t];
    assert ThreadOk(s.slots, th);
    LeftCounts(s, th.conn, th.fp);
    Room(s, t, victim, throttled);
    var r := Scan(s.slots, th.conn, th.fp, 0, 0, None);
    if r.mine < s.maxPer && FirstUnused(r.slots) < |r.slots| {
      ReserveUsed(s, r.slots, t, FirstUnused(r.slots), th.conn, th.fp, th.conn);
    } else if r.mine < s.maxPer && Evictable(r.slots, victim) {
      assert r.slots[victim].conn != th.conn;
      TallySet(r.slots, victim, EMPTY, th.conn, Used);
      ReserveUsed(s, r.slots[victim := EMPTY], t, victim, th.conn, th.fp, th.conn);
    }
  }

  // ---- every step

  ghost predicate Crowds(s: State, e: Event, c: nat) {
    e.Acquire? && Crowded(s, e.t) && s.threads[e.t].conn == c
  }

  lemma OthersNoMore(s: State, e: Event, c: nat)
    requires Inv(s) && Enabled(s, e) && !e.Acquire?
    ensures Tally(After(s, e).slots, c, Used) <= Tally(s.slots, c, Used)
  {
    var s' := After(s, e);
    Sizes(s, e);
    if e.Load? || e.Opened? || e.Release? || e.TickEnd? { OnlyHolder(s, e.t); }
    forall k | 0 <= k < |s.slots| ensures Is(s'.slots[k], c, Used) ==> Is(s.slots[k], c, Used) {
      assert SlotOk(s.slots[k]);
      if e.Invalidate? { assert s'.slots[k] == Invalidated(s.slots[k], s.threads[e.t].conn); }
    }
    TallyLess(s.slots, Used, s'.slots, Used, c);
  }

  // A connection within its limit is taken past it by just this step: an acquire that finds it crowded.
  lemma LimitStep(s: State, e: Event, c: nat)
    requires Inv(s) && Enabled(s, e) && FairPick(s, e) && Tally(s.slots, c, Used) <= s.maxPer
    ensures Tally(After(s, e).slots, c, Used) <= s.maxPer <==> !Crowds(s, e, c)
  {
    if !e.Acquire? {
      OthersNoMore(s, e, c);
    } else if NoneIdle(s.slots, s.threads[e.t].conn, s.threads[e.t].fp, 0) && s.threads[e.t].conn == c {
      AcquireOneMore(s, e.t, e.victim, e.throttled);
      TallyLess(s.slots, Used, s.slots, Leased, c);
    } else {
      AcquireNoMore(s, e.t, e.victim, e.throttled, c);
    }
  }

  // ---- whole runs

  // The connection never has more slots than its limit.
  ghost predicate Within(s: State, es: seq<Event>, c: nat)
    decreases |es|
  {
    && Tally(s.slots, c, Used) <= s.maxPer
    && (es != [] && Enabled(s, es[0]) ==> Within(After(s, es[0]), es[1..], c))
  }

  ghost predicate NeverCrowded(s: State, es: seq<Event>, c: nat)
    decreases |es|
  {
    es != [] && Enabled(s, es[0]) ==> !Crowds(s, es[0], c) && NeverCrowded(After(s, es[0]), es[1..], c)
  }

  lemma {:induction false} LimitRun(s: State, es: seq<Event>, s': State, c: nat)
    requires Inv(s) && Run(s, es, s') && Tally(s.slots, c, Used) <= s.maxPer
    ensures Within(s, es, c) <==> NeverCrowded(s, es, c)
    decreases |es|
  {
    if es != [] {
      var s1 := After(s, es[0]);
      Kept(s, es[0]);
      LimitStep(s, es[0], c);
      if Tally(s1.slots, c, Used) <= s.maxPer {
        LimitRun(s1, es[1..], s', c);
      }
    }
  }

  // In a run from an empty pool a connection keeps to its limit exactly as long as no caller finds it crowded.
  lemma LimitIff(s: State, es: seq<Event>, s': State, c: nat)
    requires Initial(s) && Run(s, es, s')
    ensures Within(s, es, c) <==> NeverCrowded(s, es, c)
  {
    InitialInv(s);
    NoneTallied(s.slots, c, Used);
    LimitRun(s, es, s', c);
  }

  // ---- callers that keep to the limit

  // Every call for the connection comes with one configuration, and no slot of it has another label.
  ghost predicate OneConfig(s: State, c: nat, f: nat) {
    && (forall i {:trigger s.slots[i]} :: 0 <= i < |s.slots| && s.slots[i].used && s.slots[i].conn == c ==>
          s.slots[i].fp == f)
    && (forall t {:trigger s.threads[t]} :: 0 <= t < |s.threads| ==> AsksFor(s.threads[t], c, f))
  }

  // A caller that is to open a session of the connection has this configuration.
  ghost predicate AsksFor(th: Thread, c: nat, f: nat) {
    (th.Acquiring? || th.Opening?) && th.conn == c ==> th.fp == f
  }

  // No invalidation of the connection comes while a slot of it is on lease.
  ghost predicate Calm(s: State, es: seq<Event>, c: nat)
    decreases |es|
  {
    es != [] && Enabled(s, es[0]) ==>
      && (es[0].Invalidate? && s.threads[es[0].t].conn == c ==> Tally(s.slots, c, Leased) == 0)
      && Calm(After(s, es[0]), es[1..], c)
  }

  lemma {:induction false} TallyNone(slots: seq<Slot>, c: nat, kind: Kind)
    ensures Tally(slots, c, kind) == 0 <==> forall i :: 0 <= i < |slots| ==> !Is(slots[i], c, kind)
  {
    if slots != [] { TallyNone(slots[1..], c, kind); }
  }

  // A slot keeps its labels, is emptied, or gets those of the caller.
  ghost predicate Relabelled(before: Slot, after: Slot, conn: nat, fp: nat) {
    || !after.used
    || (before.used && after.conn == before.conn && after.fp == before.fp)
    || (after.conn == conn && after.fp == fp)
  }

  lemma AcquireLabel(s: State, t: nat, victim: nat, throttled: bool, i: nat)
    requires Inv(s) && Enabled(s, Acquire(t, victim, throttled)) && i < |s.slots|
    ensures |AfterAcquire(s, t, victim, throttled).slots| == |s.slots|
    ensures Relabelled(s.slots[i], AfterAcquire(s, t, victim, throttled).slots[i], s.threads[t].conn, s.threads[t].fp)
  {
    assert SlotOk(s.slots[i]);
    AcquireSlot(s, t, victim, throttled, i);
  }

  lemma OneConfigSlots(s: State, e: Event, c: nat, f: nat, i: nat)
    requires Inv(s) && Enabled(s, e) && OneConfig(s, c, f) && i < |s.slots|
    requires e.Invalidate? && s.threads[e.t].conn == c ==> Tally(s.slots, c, Leased) == 0
    ensures |After(s, e).slots| == |s.slots|
    ensures After(s, e).slots[i].used && After(s, e).slots[i].conn == c ==> After(s, e).slots[i].fp == f
  {
    Sizes(s, e);
    assert SlotOk(s.slots[i]) && AsksFor(s.threads[e.t], c, f);
    if e.Acquire? {
      AcquireLabel(s, e.t, e.victim, e.throttled, i);
    } else if e.Invalidate? {
      assert After(s, e).slots[i] == Invalidated(s.slots[i], s.threads[e.t].conn);
      TallyNone(s.slots, c, Leased);
    } else if e.Load? {
      OnlyHolder(s, e.t);
    }
  }

  lemma OneConfigKept(s: State, e: Event, c: nat, f: nat)
    requires Inv(s) && Enabled(s, e) && OneConfig(s, c, f)
    requires e.Invalidate? && s.threads[e.t].conn == c ==> Tally(s.slots, c, Leased) == 0
    ensures OneConfig(After(s, e), c, f)
  {
    var s' := After(s, e);
    Sizes(s, e);
    forall i {:trigger s'.slots[i]} | 0 <= i < |s'.slots| && s'.slots[i].used && s'.slots[i].conn == c
      ensures s'.slots[i].fp == f
    {
      OneConfigSlots(s, e, c, f, i);
    }
    forall t {:trigger s'.threads[t]} | 0 <= t < |s'.threads|
      ensures AsksFor(s'.threads[t], c, f)
    {
      assert AsksFor(s.threads[t], c, f);
      if t != e.t { OthersStand(s, e, t); }
    }
  }

  // With one configuration nobody finds the connection crowded: all slots on lease carry the label asked for.
  lemma OneConfigRoom(s: State, e: Event, c: nat, f: nat)
    requires Inv(s) && Enabled(s, e) && OneConfig(s, c, f)
    ensures !Crowds(s, e, c)
  {
    assert AsksFor(s.threads[e.t], c, f);
    TallyLess(s.slots, Labelled(f), s.slots, Leased, c);
  }

  lemma {:induction false} CalmRun(s: State, es: seq<Event>, s': State, c: nat, f: nat)
    requires Inv(s) && Run(s, es, s') && OneConfig(s, c, f) && Calm(s, es, c)
    ensures NeverCrowded(s, es, c)
    decreases |es|
  {
    if es != [] {
      Kept(s, es[0]);
      OneConfigRoom(s, es[0], c, f);
      OneConfigKept(s, es[0], c, f);
      CalmRun(After(s, es[0]), es[1..], s', c, f);
    }
  }

  lemma {:induction false} WithinEnd(s: State, es: seq<Event>, s': State, c: nat)
    requires Inv(s) && Run(s, es, s') && Within(s, es, c)
    ensures Tally(s'.slots, c, Used) <= s.maxPer
    decreases |es|
  {
    if es != [] {
      Kept(s, es[0]);
      WithinEnd(After(s, es[0]), es[1..], s', c);
    }
  }

  // A connection asked for with one configuration only, and never invalidated while on lease, has at no time
  // more live sessions than its limit.
  lemma SessionLimit(s: State, es: seq<Event>, s': State, c: nat, f: nat)
    requires Initial(s) && Run(s, es, s') && OneConfig(s, c, f) && Calm(s, es, c)
    ensures Within(s, es, c)
    ensures Tally(s'.slots, c, Live) <= Tally(s'.slots, c, Used) <= s.maxPer
  {
    InitialInv(s);
    CalmRun(s, es, s', c, f);
    LimitIff(s, es, s', c);
    WithinEnd(s, es, s', c);
    TallyLess(s'.slots, Used, s'.slots, Live, c);
  }
}
