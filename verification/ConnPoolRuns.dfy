// What runs of the connection pool come to: every schedule ends, what an invalidation comes to, and how many
// slots carry one label.

module ConnPoolRuns {
  import opened Shared
  import opened ConnPool

  // ---- every schedule ends, with every call returned

  // What a caller may still do; a round of keepalive counts down over the slots.
  function ThreadWork(th: Thread, n: nat): nat {
    match th
    case Acquiring(_, _, _) => 4
    case Opening(_, _, _, written) => if written then 2 else 3
    case Holding(_, _, _, _) => 1
    case Invalidating(_) => 1
    case Ticking(at) => if at <= n then 2 * (n - at) + 2 else 1
    case Pinging(i, _) => if i < n then 2 * (n - i) + 1 else 1
    case Destroying(_) => 1
    case Done => 0
  }

  function WorkSum(ths: seq<Thread>, n: nat): nat {
    if ths == [] then 0 else ThreadWork(ths[0], n) + WorkSum(ths[1..], n)
  }

  predicate IsUp(th: Thread) {
    (th.Acquiring? && !th.asleep) || (th.Destroying? && !th.asleep)
  }

  function UpCount(ths: seq<Thread>): (k: nat)
    ensures k <= |ths|
  {
    if ths == [] then 0 else (if IsUp(ths[0]) then 1 else 0) + UpCount(ths[1..])
  }

  function Bound(s: State): nat {
    WorkSum(s.threads, |s.slots|) * (|s.threads| + 1) + UpCount(s.threads)
  }

  lemma {:induction false} SumSet(ths: seq<Thread>, i: nat, th: Thread, n: nat)
    requires i < |ths|
    ensures WorkSum(ths[i := th], n) + ThreadWork(ths[i], n) == WorkSum(ths, n) + ThreadWork(th, n)
    ensures UpCount(ths[i := th]) + (if IsUp(ths[i]) then 1 else 0) == UpCount(ths) + (if IsUp(th) then 1 else 0)
  {
    if i == 0 {
      assert ths[0 := th][1..] == ths[1..];
    } else {
      assert ths[i := th][1..] == ths[1..][i - 1 := th];
      SumSet(ths[1..], i - 1, th, n);
    }
  }

  lemma {:induction false} SumWoken(ths: seq<Thread>, n: nat)
    ensures WorkSum(WakeAll(ths), n) == WorkSum(ths, n)
  {
    if ths != [] {
      assert WakeAll(ths)[1..] == WakeAll(ths[1..]);
      SumWoken(ths[1..], n);
    }
  }

  ghost predicate Nearer(s: State, s': State) {
    && |s'.threads| == |s.threads| && |s'.slots| == |s.slots|
    && var n := |s.slots|;
       WorkSum(s'.threads, n) < WorkSum(s.threads, n) ||
       (WorkSum(s'.threads, n) == WorkSum(s.threads, n) && UpCount(s'.threads) < UpCount(s.threads))
  }

  // The caller of a step gets on with its work, or goes to sleep.
  ghost predicate GetsOn(s: State, s': State, t: nat) {
    && t < |s.threads| == |s'.threads|
    && var n, th, th' := |s.slots|, s.threads[t], s'.threads[t];
       && (s'.threads == s.threads[t := th'] || s'.threads == WakeAll(s.threads[t := th']))
       && (ThreadWork(th', n) < ThreadWork(th, n) ||
           (s'.threads == s.threads[t := th'] && ThreadWork(th', n) == ThreadWork(th, n) && IsUp(th) && !IsUp(th')))
  }

  lemma AcquireGetsOn(s: State, t: nat, victim: nat, throttled: bool)
    requires Inv(s) && Enabled(s, Acquire(t, victim, throttled))
    ensures GetsOn(s, AfterAcquire(s, t, victim, throttled), t)
  {
    var th := s.threads[t];
    assert ThreadOk(s.slots, th);
    SweptKept(s, th.conn, th.fp);
    var r := Scan(s.slots, th.conn, th.fp, 0, 0, None);
    if r.Found? { assert ScanSlot(s.slots[r.i], r.slots[r.i], th.conn, th.fp, true); }
  }

  lemma StepThread(s: State, e: Event)
    requires Inv(s) && Enabled(s, e) && !e.Rouse?
    ensures GetsOn(s, After(s, e), e.t)
  {
    if e.Acquire? {
      AcquireGetsOn(s, e.t, e.victim, e.throttled);
    } else {
      OthersGetOn(s, e);
    }
  }

  lemma OthersGetOn(s: State, e: Event)
    requires Inv(s) && Enabled(s, e) && !e.Rouse? && !e.Acquire?
    ensures GetsOn(s, After(s, e), e.t)
  {
    assert ThreadOk(s.slots, s.threads[e.t]);
    if Wakes(e) { WakersGetOn(s, e); } else { QuietGetOn(s, e); }
  }

  predicate Wakes(e: Event) {
    (e.Opened? && !e.ok) || e.Release? || e.Invalidate? || e.TickEnd?
  }

  lemma WakersGetOn(s: State, e: Event)
    requires Enabled(s, e) && Wakes(e) && ThreadOk(s.slots, s.threads[e.t])
    ensures GetsOn(s, After(s, e), e.t)
  {
    DoneLast(s.threads, e.t, if e.TickEnd? then Ticking(s.threads[e.t].slot + 1) else Done);
  }

  lemma QuietGetOn(s: State, e: Event)
    requires Enabled(s, e) && !Wakes(e) && !e.Rouse? && !e.Acquire? && ThreadOk(s.slots, s.threads[e.t])
    ensures GetsOn(s, After(s, e), e.t)
  {
  }

  // A caller that wakes the others and is not a sleeper itself stays as it is.
  lemma DoneLast(ths: seq<Thread>, t: nat, th: Thread)
    requires t < |ths| && (th.Done? || th.Ticking?)
    ensures WakeAll(ths[t := th])[t] == th && WakeAll(ths[t := th]) == WakeAll(ths[t := WakeAll(ths[t := th])[t]])
  {
  }

  lemma StepBound(s: State, e: Event)
    requires Inv(s) && Enabled(s, e) && FairPick(s, e) && !e.Rouse?
    ensures Bound(After(s, e)) < Bound(s)
  {
    hide After;
    var s' := After(s, e);
    var n := |s.slots|;
    Kept(s, e);
    StepThread(s, e);
    SumSet(s.threads, e.t, s'.threads[e.t], n);
    SumWoken(s.threads[e.t := s'.threads[e.t]], n);
    if WorkSum(s'.threads, n) < WorkSum(s.threads, n) {
      RoundLess(WorkSum(s'.threads, n), WorkSum(s.threads, n), |s.threads| + 1);
    }
  }

  ghost predicate Resting(s: State) {
    forall e: Event {:trigger Enabled(s, e)} :: Enabled(s, e) ==> e.Rouse?
  }

  // A caller that is neither done nor asleep can move.
  lemma Moves(s: State, t: nat) returns (e: Event)
    requires Inv(s) && !s.closed && t < |s.threads| && !s.threads[t].Done? && !Asleep(s.threads[t])
    ensures Enabled(s, e) && !e.Rouse?
  {
    assert ThreadOk(s.slots, s.threads[t]);
    match s.threads[t]
    case Acquiring(_, _, _) => e := Acquire(t, 0, false);
    case Opening(_, _, _, written) => e := if written then Opened(t, false) else Load(t, false);
    case Holding(_, _, _, _) => e := Release(t, true);
    case Invalidating(_) => e := Invalidate(t);
    case Ticking(_) => e := TickLook(t, false);
    case Pinging(_, _) => e := TickEnd(t, true);
    case Destroying(_) => e := DestroyLook(t);
  }

  lemma RestingDone(s: State)
    requires Inv(s) && !s.closed && Resting(s)
    ensures forall t :: 0 <= t < |s.threads| ==> s.threads[t].Done?
    ensures !AnyLeased(s.slots)
  {
    forall t | 0 <= t < |s.threads| ensures s.threads[t].Done? || Asleep(s.threads[t]) {
      if !s.threads[t].Done? && !Asleep(s.threads[t]) {
        var e := Moves(s, t);
      }
    }
    forall t: nat, i: nat ensures !HeldBy(s, t, i) { }
    forall t | 0 <= t < |s.threads| ensures s.threads[t].Done? {
      assert Asleep(s.threads[t]) ==> AnyLeased(s.slots);
    }
  }

  lemma {:induction false} RunBounded(s: State, es: seq<Event>, s': State)
    requires Inv(s) && Run(s, es, s') && forall i :: 0 <= i < |es| ==> !es[i].Rouse?
    ensures |es| + Bound(s') <= Bound(s)
    decreases |es|
  {
    if es != [] {
      StepBound(s, es[0]);
      Kept(s, es[0]);
      RunBounded(After(s, es[0]), es[1..], s');
    }
  }

  // However the calls interleave, they end, if every lease is given back; nobody is left waiting.
  lemma AllSchedulesEnd(s: State, es: seq<Event>, s': State)
    requires Initial(s) && Run(s, es, s') && forall i :: 0 <= i < |es| ==> !es[i].Rouse?
    ensures |es| <= Bound(s)
    ensures Resting(s') && !s'.closed ==>
            (forall t :: 0 <= t < |s'.threads| ==> s'.threads[t].Done?) && !AnyLeased(s'.slots)
  {
    InitialInv(s);
    RunKept(s, es, s');
    RunBounded(s, es, s');
    if Resting(s') && !s'.closed { RestingDone(s'); }
  }

  // ---- invalidation

  ghost predicate PingsIn(s: State, t: nat) {
    t < |s.threads| && s.threads[t].Pinging? && s.threads[t].slot < |s.slots|
  }

  // Idle sessions carry a live label, unless an invalidation has hit a slot under ping.
  ghost predicate Fresh(s: State) {
    !s.pinged ==>
      && (forall i {:trigger s.slots[i]} :: 0 <= i < |s.slots| && !s.slots[i].leased && s.slots[i].inst.Some? ==>
            s.slots[i].fp != 0)
      && (forall t {:trigger s.threads[t]} :: 0 <= t < |s.threads| && PingsIn(s, t) ==>
            s.slots[s.threads[t].slot].fp != 0)
  }

  lemma FreshAcquire(s: State, t: nat, victim: nat, throttled: bool)
    requires Inv(s) && Fresh(s) && Enabled(s, Acquire(t, victim, throttled))
    ensures Fresh(AfterAcquire(s, t, victim, throttled))
  {
    var s' := AfterAcquire(s, t, victim, throttled);
    if !s.pinged {
      FreshSlots(s, t, victim, throttled);
      forall u {:trigger s'.threads[u]} | 0 <= u < |s'.threads| && PingsIn(s', u)
        ensures s'.slots[s'.threads[u].slot].fp != 0
      {
        assert s.threads[u].Pinging? && ThreadOk(s.slots, s.threads[u]);
        AcquireLeaves(s, t, victim, throttled, s.threads[u].slot);
      }
    }
  }

  lemma FreshSlots(s: State, t: nat, victim: nat, throttled: bool)
    requires Inv(s) && Fresh(s) && !s.pinged && Enabled(s, Acquire(t, victim, throttled))
    ensures var s' := AfterAcquire(s, t, victim, throttled);
            forall i :: 0 <= i < |s'.slots| && !s'.slots[i].leased && s'.slots[i].inst.Some? ==> s'.slots[i].fp != 0
  {
    var s' := AfterAcquire(s, t, victim, throttled);
    Sizes(s, Acquire(t, victim, throttled));
    forall i | 0 <= i < |s'.slots| && !s'.slots[i].leased && s'.slots[i].inst.Some? ensures s'.slots[i].fp != 0 {
      AcquireSlot(s, t, victim, throttled, i);
    }
  }

  lemma FreshInvalidate(s: State, t: nat)
    requires Inv(s) && Fresh(s) && Enabled(s, Invalidate(t))
    ensures Fresh(AfterInvalidate(s, t))
  {
    var s' := AfterInvalidate(s, t);
    var conn := s.threads[t].conn;
    if !s'.pinged {
      forall i {:trigger s'.slots[i]} | 0 <= i < |s'.slots| && !s'.slots[i].leased && s'.slots[i].inst.Some?
        ensures s'.slots[i].fp != 0
      {
        assert s'.slots[i] == Invalidated(s.slots[i], conn);
      }
      forall u {:trigger s'.threads[u]} | 0 <= u < |s'.threads| && PingsIn(s', u)
        ensures s'.slots[s'.threads[u].slot].fp != 0
      {
        assert s.threads[u].Pinging? && ThreadOk(s.slots, s.threads[u]);
        var i := s.threads[u].slot;
        assert SlotOk(s.slots[i]) && s'.slots[i] == Invalidated(s.slots[i], conn);
        assert s.threads[u].sess.conn != conn;
      }
    }
  }

  lemma FreshOthers(s: State, e: Event)
    requires Inv(s) && Fresh(s) && Enabled(s, e) && !e.Acquire? && !e.Invalidate?
    ensures Fresh(After(s, e))
  {
    var s' := After(s, e);
    if e.Load? || e.Opened? || e.Release? || e.TickEnd? { OnlyHolder(s, e.t); }
    if !s'.pinged {
      forall u {:trigger s'.threads[u]} | 0 <= u < |s'.threads| && PingsIn(s', u)
        ensures s'.slots[s'.threads[u].slot].fp != 0
      {
        if u != e.t {
          assert s.threads[u].Pinging? && ThreadOk(s.slots, s.threads[u]);
          assert HeldBy(s, u, s.threads[u].slot);
          LeaseUntouched(s, e, u, s.threads[u].slot);
        }
      }
    }
  }

  lemma FreshKept(s: State, e: Event)
    requires Inv(s) && Fresh(s) && Enabled(s, e)
    ensures Fresh(After(s, e))
  {
    if e.Acquire? {
      FreshAcquire(s, e.t, e.victim, e.throttled);
    } else if e.Invalidate? {
      FreshInvalidate(s, e.t);
    } else {
      FreshOthers(s, e);
    }
  }

  lemma {:induction false} RunFresh(s: State, es: seq<Event>, s': State)
    requires Inv(s) && Fresh(s) && Run(s, es, s')
    ensures Fresh(s')
    decreases |es|
  {
    if es != [] {
      Kept(s, es[0]);
      FreshKept(s, es[0]);
      RunFresh(After(s, es[0]), es[1..], s');
    }
  }

  // ---- a session that lost its label

  ghost predicate In(s: State, i: nat, x: Session) {
    i < |s.slots| && s.slots[i].inst == Some(x)
  }

  // Session numbers are given out once.
  ghost predicate Numbered(s: State) {
    && (forall i: nat, x: Session {:trigger In(s, i, x)} :: In(s, i, x) ==> x.id < s.nextId)
    && (forall i: nat, j: nat, x: Session {:trigger In(s, i, x), In(s, j, x)} :: In(s, i, x) && In(s, j, x) ==> i == j)
  }

  // A session is in the slot it was in, or is new.
  lemma SessionStays(s: State, e: Event, i: nat, x: Session)
    requires Inv(s) && Enabled(s, e) && In(After(s, e), i, x)
    ensures In(s, i, x) || (x.id == s.nextId && After(s, e).nextId == s.nextId + 1 && e.Load? &&
        s.threads[e.t].slot == i)
  {
    Sizes(s, e);
    if e.Acquire? {
      AcquireSlot(s, e.t, e.victim, e.throttled, i);
    } else if e.Invalidate? {
      assert After(s, e).slots[i] == Invalidated(s.slots[i], s.threads[e.t].conn);
    }
  }

  lemma NumberedKept(s: State, e: Event)
    requires Inv(s) && Numbered(s) && Enabled(s, e)
    ensures Numbered(After(s, e)) && s.nextId <= After(s, e).nextId
  {
    var s' := After(s, e);
    forall i: nat, x: Session | In(s', i, x) ensures x.id < s'.nextId { SessionStays(s, e, i, x); }
    forall i: nat, j: nat, x: Session | In(s', i, x) && In(s', j, x) ensures i == j {
      SessionStays(s, e, i, x);
      SessionStays(s, e, j, x);
    }
  }

  // Session x is in slot i, whose label an invalidation has taken.
  ghost predicate Dead(s: State, i: nat, x: Session) {
    In(s, i, x) && s.slots[i].fp == 0
  }

  // The label does not come back while the session lives.
  lemma DeadStays(s: State, e: Event, i: nat, x: Session)
    requires Inv(s) && Numbered(s) && Enabled(s, e) && Dead(s, i, x)
    ensures In(After(s, e), i, x) ==> Dead(After(s, e), i, x)
  {
    assert x.id < s.nextId;
    if e.Acquire? {
      AcquireSlot(s, e.t, e.victim, e.throttled, i);
    } else if e.Invalidate? {
      assert After(s, e).slots[i] == Invalidated(s.slots[i], s.threads[e.t].conn);
    } else if e.Load? {
      OnlyHolder(s, e.t);
    }
  }

  // Caller u opens slot i or holds its lease.
  ghost predicate Leases(s: State, u: nat, i: nat) {
    HeldBy(s, u, i) && !s.threads[u].Pinging?
  }

  lemma OthersStand(s: State, e: Event, u: nat)
    requires Inv(s) && Enabled(s, e) && u != e.t && u < |s.threads|
    ensures u < |After(s, e).threads|
    ensures After(s, e).threads[u] == s.threads[u] || After(s, e).threads[u] == Wake(s.threads[u])
  {
    Sizes(s, e);
  }

  lemma TakerHadIt(s: State, e: Event, i: nat, x: Session)
    requires Inv(s) && Enabled(s, e) && Dead(s, i, x) && In(After(s, e), i, x) && Leases(After(s, e), e.t, i)
    ensures Leases(s, e.t, i)
  {
    if e.Acquire? { AcquireSlot(s, e.t, e.victim, e.throttled, i); }
  }

  // Nobody new is given it: who opens or holds slot i then already had it.
  lemma DeadHolders(s: State, e: Event, i: nat, x: Session, u: nat)
    requires Inv(s) && Numbered(s) && Enabled(s, e) && Dead(s, i, x) && In(After(s, e), i, x)
    requires Leases(After(s, e), u, i)
    ensures Leases(s, u, i)
  {
    if u == e.t { TakerHadIt(s, e, i, x); } else { OthersStand(s, e, u); }
  }

  lemma {:induction false} GoneForGood(s: State, es: seq<Event>, s': State, x: Session)
    requires Inv(s) && Numbered(s) && x.id < s.nextId && (forall i: nat :: !In(s, i, x)) && Run(s, es, s')
    ensures forall i: nat :: !In(s', i, x)
    decreases |es|
  {
    if es != [] {
      Kept(s, es[0]);
      NumberedKept(s, es[0]);
      forall i: nat ensures !In(After(s, es[0]), i, x) {
        if In(After(s, es[0]), i, x) { SessionStays(s, es[0], i, x); }
      }
      GoneForGood(After(s, es[0]), es[1..], s', x);
    }
  }

  // An invalidated session, however the run goes on, keeps its dead label as long as it lives, and whoever
  // holds it had it when it was invalidated.
  lemma {:induction false} InvalidationSticks(s: State, es: seq<Event>, s': State, i: nat, x: Session)
    requires Inv(s) && Numbered(s) && Dead(s, i, x) && Run(s, es, s')
    ensures forall j: nat :: In(s', j, x) ==> j == i && Dead(s', i, x)
    ensures forall u: nat :: In(s', i, x) && Leases(s', u, i) ==> Leases(s, u, i)
    decreases |es|
  {
    if es != [] {
      var e := es[0];
      var s1 := After(s, e);
      Kept(s, e);
      NumberedKept(s, e);
      DeadStays(s, e, i, x);
      if In(s1, i, x) {
        InvalidationSticks(s1, es[1..], s', i, x);
        forall u: nat | In(s', i, x) && Leases(s', u, i) ensures Leases(s, u, i) {
          DeadHolders(s, e, i, x, u);
        }
      } else {
        forall j: nat ensures !In(s1, j, x) { if In(s1, j, x) { SessionStays(s, e, j, x); } }
        GoneForGood(s1, es[1..], s', x);
      }
    } else {
      forall j: nat | In(s', j, x) ensures j == i { }
    }
  }

  // The end of a lease closes an invalidated session, unless it was a ping that found it alive.
  lemma DeadLeaseEnds(s: State, e: Event, i: nat, x: Session)
    requires Inv(s) && Enabled(s, e) && Dead(s, i, x) && s.slots[i].leased
    requires i < |After(s, e).slots| && !After(s, e).slots[i].leased
    ensures In(After(s, e), i, x) <==> e.TickEnd? && e.alive
  {
    if e.Acquire? {
      AcquireLeaves(s, e.t, e.victim, e.throttled, i);
    } else if e.DestroyLook? {
      assert SlotOk(s.slots[i]) && AnyLeased(s.slots);
    }
  }

  // Whatever session is being opened when its connection is invalidated, its slot gets back the label.
  lemma InvalidationUndone(s: State, t: nat, u: nat, loaded: bool)
    requires Inv(s) && Enabled(s, Invalidate(t)) && Unwritten(s, u) && s.threads[u].conn == s.threads[t].conn
    ensures var s1 := AfterInvalidate(s, t);
            var i := s.threads[u].slot;
            && s1.slots[i].fp == 0 && Enabled(s1, Load(u, loaded))
            && AfterLoad(s1, u, loaded).slots[i].fp == s.threads[u].fp != 0
  {
    var i := s.threads[u].slot;
    assert ThreadOk(s.slots, s.threads[u]) && SlotOk(s.slots[i]);
    assert AfterInvalidate(s, t).slots[i] == Invalidated(s.slots[i], s.threads[t].conn);
  }

  lemma InitialRest(s: State)
    requires Initial(s)
    ensures Fresh(s) && Numbered(s) && CapOk(s)
  {
    forall i: nat, x: Session ensures !In(s, i, x) { }
    forall conn: nat, fp: nat ensures Tally(s.slots, conn, Labelled(fp)) == 0 {
      NoneTallied(s.slots, conn, Labelled(fp));
    }
  }

  // When all calls have returned, every session that lost its label has been closed, unless an invalidation
  // ever hit a slot under ping.
  lemma InvalidatedClosed(s: State, es: seq<Event>, s': State)
    requires Initial(s) && Run(s, es, s') && Resting(s') && !s'.closed && !s'.pinged
    ensures forall i: nat, x: Session :: !Dead(s', i, x)
  {
    InitialInv(s);
    InitialRest(s);
    RunKept(s, es, s');
    RunFresh(s, es, s');
    RestingDone(s');
    forall i: nat, x: Session ensures !Dead(s', i, x) {
      if In(s', i, x) { assert SlotOk(s'.slots[i]); }
    }
  }

  // ---- the number of slots labelled with one configuration of a connection

  // The scan counts the slots it leaves with this label.
  lemma {:induction false} ScanCounts(slots: seq<Slot>, conn: nat, fp: nat, i: nat, mine: nat, dead: Option<nat>)
    requires i <= |slots| && fp != 0 && mine == Tally(slots[..i], conn, Labelled(fp))
    ensures var r := Scan(slots, conn, fp, i, mine, dead); r.Searched? ==> r.mine == Tally(r.slots, conn, Labelled(fp))
    decreases |slots| - i
  {
    if i == |slots| {
      assert slots[..i] == slots;
    } else {
      var s := slots[i];
      var freed := s.used && s.conn == conn && s.fp != fp && !s.leased;
      var slots' := if freed then slots[i := EMPTY] else slots;
      assert slots'[..i + 1] == slots[..i] + [slots'[i]];
      TallySnoc(slots[..i], slots'[i], conn, Labelled(fp));
      if !s.used || s.conn != conn {
        ScanCounts(slots, conn, fp, i + 1, mine, dead);
      } else if s.fp != fp {
        ScanCounts(slots', conn, fp, i + 1, mine, dead);
      } else if s.leased {
        ScanCounts(slots, conn, fp, i + 1, mine + 1, dead);
      } else if s.inst.None? {
        ScanCounts(slots, conn, fp, i + 1, mine + 1, if dead.None? then Some(i) else dead);
      }
    }
  }

  ghost predicate Unwritten(s: State, t: nat) {
    t < |s.threads| && s.threads[t].Opening? && !s.threads[t].written && s.threads[t].slot < |s.slots|
  }

  // No configuration of a connection has more than maxPer slots, unless an invalidation has ever hit a slot
  // whose opener had yet to set its labels again.
  ghost predicate CapOk(s: State) {
    !s.rewritten ==>
      && (forall t {:trigger s.threads[t]} :: 0 <= t < |s.threads| && Unwritten(s, t) ==>
            s.slots[s.threads[t].slot].fp == s.threads[t].fp)
      && (forall conn: nat, fp: nat {:trigger Tally(s.slots, conn, Labelled(fp))} :: fp != 0 ==>
          Tally(s.slots, conn, Labelled(fp)) <= s.maxPer)
  }

  lemma CapReserve(s: State, slots: seq<Slot>, t: nat, i: nat, conn: nat, fp: nat, c: nat, f: nat)
    requires t < |s.threads| && i < |slots| && f != 0
    requires Tally(slots, c, Labelled(f)) <= s.maxPer
    requires Is(slots[i], conn, Labelled(fp)) || Tally(slots, conn, Labelled(fp)) < s.maxPer
    ensures Tally(Reserve(s, slots, t, i, conn, fp).slots, c, Labelled(f)) <= s.maxPer
  {
    TallySet(slots, i, Reserve(s, slots, t, i, conn, fp).slots[i], c, Labelled(f));
  }

  lemma CapAcquire(s: State, t: nat, victim: nat, throttled: bool, c: nat, f: nat)
    requires Inv(s) && Enabled(s, Acquire(t, victim, throttled)) && f != 0 && Tally(s.slots, c, Labelled(f)) <= s.maxPer
    ensures Tally(AfterAcquire(s, t, victim, throttled).slots, c, Labelled(f)) <= s.maxPer
  {
    var th := s.threads[t];
    assert ThreadOk(s.slots, th);
    SweptKept(s, th.conn, th.fp);
    var r := Scan(s.slots, th.conn, th.fp, 0, 0, None);
    forall k | 0 <= k < |r.slots| ensures Is(r.slots[k], c, Labelled(f)) ==> Is(s.slots[k], c, Labelled(f)) {
      assert ScanSlot(s.slots[k], r.slots[k], th.conn, th.fp, r.Found? && r.i == k);
    }
    TallyLess(s.slots, Labelled(f), r.slots, Labelled(f), c);
    if r.Searched? {
      assert s.slots[..0] == [] && Tally([], th.conn, Labelled(th.fp)) == 0;
      ScanCounts(s.slots, th.conn, th.fp, 0, 0, None);
      if r.dead.Some? {
        if !throttled { CapReserve(s, r.slots, t, r.dead.value, th.conn, th.fp, c, f); }
      } else if r.mine < s.maxPer && FirstUnused(r.slots) < |r.slots| {
        CapReserve(s, r.slots, t, FirstUnused(r.slots), th.conn, th.fp, c, f);
      } else if r.mine < s.maxPer && Evictable(r.slots, victim) {
        TallySet(r.slots, victim, EMPTY, c, Labelled(f));
        TallySet(r.slots, victim, EMPTY, th.conn, Labelled(th.fp));
        CapReserve(s, r.slots[victim := EMPTY], t, victim, th.conn, th.fp, c, f);
      }
    }
  }

  lemma CapStep(s: State, e: Event, c: nat, f: nat)
    requires Inv(s) && Enabled(s, e) && f != 0 && Tally(s.slots, c, Labelled(f)) <= s.maxPer
    requires e.Load? ==> s.slots[s.threads[e.t].slot].fp == s.threads[e.t].fp
    ensures Tally(After(s, e).slots, c, Labelled(f)) <= s.maxPer
  {
    var s' := After(s, e);
    if e.Acquire? {
      CapAcquire(s, e.t, e.victim, e.throttled, c, f);
    } else {
      Sizes(s, e);
      if e.Load? || e.Opened? || e.Release? || e.TickEnd? { OnlyHolder(s, e.t); }
      forall k | 0 <= k < |s.slots| ensures Is(s'.slots[k], c, Labelled(f)) ==> Is(s.slots[k], c, Labelled(f)) {
        assert SlotOk(s.slots[k]);
        if e.Invalidate? { assert s'.slots[k] == Invalidated(s.slots[k], s.threads[e.t].conn); }
      }
      TallyLess(s.slots, Labelled(f), s'.slots, Labelled(f), c);
    }
  }

  lemma CapOpeners(s: State, e: Event, u: nat)
    requires Inv(s) && CapOk(s) && Enabled(s, e) && !After(s, e).rewritten && Unwritten(After(s, e), u)
    ensures After(s, e).slots[After(s, e).threads[u].slot].fp == After(s, e).threads[u].fp
  {
    hide WakeAll, SlotOk;
    if u != e.t {
      Sizes(s, e);
      OthersStand(s, e, u);
      assert Unwritten(s, u);
      CapOthers(s, e, u);
    }
  }

  lemma CapOthers(s: State, e: Event, u: nat)
    requires Inv(s) && CapOk(s) && Enabled(s, e) && !After(s, e).rewritten && Unwritten(s, u) && u != e.t
    ensures |After(s, e).slots| == |s.slots| && After(s, e).slots[s.threads[u].slot].fp == s.threads[u].fp
  {
    var i := s.threads[u].slot;
    assert ThreadOk(s.slots, s.threads[u]) && SlotOk(s.slots[i]);
    assert HeldBy(s, u, i);
    if e.Invalidate? {
      assert After(s, e).slots[i] == Invalidated(s.slots[i], s.threads[e.t].conn);
      assert s.threads[u].conn != s.threads[e.t].conn;
    } else {
      LeaseUntouched(s, e, u, i);
    }
  }

  lemma CapKept(s: State, e: Event)
    requires Inv(s) && CapOk(s) && Enabled(s, e) && FairPick(s, e)
    ensures CapOk(After(s, e))
  {
    var s' := After(s, e);
    if !s'.rewritten {
      Kept(s, e);
      forall u {:trigger s'.threads[u]} | 0 <= u < |s'.threads| && Unwritten(s', u)
        ensures s'.slots[s'.threads[u].slot].fp == s'.threads[u].fp
      {
        CapOpeners(s, e, u);
      }
      forall conn: nat, fp: nat {:trigger Tally(s'.slots, conn, Labelled(fp))} | fp != 0
        ensures Tally(s'.slots, conn, Labelled(fp)) <= s'.maxPer
      {
        assert Tally(s.slots, conn, Labelled(fp)) <= s.maxPer;
        CapStep(s, e, conn, fp);
      }
    }
  }

  lemma {:induction false} RunCap(s: State, es: seq<Event>, s': State)
    requires Inv(s) && CapOk(s) && Run(s, es, s')
    ensures CapOk(s')
    decreases |es|
  {
    if es != [] {
      Kept(s, es[0]);
      CapKept(s, es[0]);
      RunCap(After(s, es[0]), es[1..], s');
    }
  }

  // In a run without such an invalidation no more than maxPer slots carry one label.
  lemma LabelLimit(s: State, es: seq<Event>, s': State, conn: nat, fp: nat)
    requires Initial(s) && Run(s, es, s') && !s'.rewritten && fp != 0
    ensures Tally(s'.slots, conn, Labelled(fp)) <= s.maxPer
  {
    InitialInv(s);
    InitialRest(s);
    RunKept(s, es, s');
    RunCap(s, es, s');
  }
}
