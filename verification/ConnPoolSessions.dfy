// The life of a session: which steps close it, who is given it, and that what is closed is gone for good.

module ConnPoolSessions {
  import opened Shared
  import opened ConnPool
  import opened ConnPoolRuns

  // ---- the scan, slot by slot

  // An idle session of the configuration asked for; an idle slot of another one; an idle slot of the
  // configuration without a session.
  predicate Fit(slot: Slot, conn: nat, fp: nat) {
    slot.used && slot.conn == conn && slot.fp == fp && !slot.leased && slot.inst.Some?
  }

  predicate Stale(slot: Slot, conn: nat, fp: nat) {
    slot.used && slot.conn == conn && slot.fp != fp && !slot.leased
  }

  predicate Vacant(slot: Slot, conn: nat, fp: nat) {
    slot.used && slot.conn == conn && slot.fp == fp && !slot.leased && slot.inst.None?
  }

  // No fitting slot from place i on and before n.
  ghost predicate NoneFits(slots: seq<Slot>, conn: nat, fp: nat, i: nat, n: nat) {
    forall k :: i <= k < n && k < |slots| ==> !Fit(slots[k], conn, fp)
  }

  // What a scan that stopped at n has made of slot k.
  function Scanned1(slot: Slot, conn: nat, fp: nat, k: nat, n: nat): Slot {
    if k < n && Stale(slot, conn, fp) then EMPTY else if k == n then slot.(leased := true) else slot
  }

  ghost predicate ScannedAll(slots: seq<Slot>, after: seq<Slot>, conn: nat, fp: nat, i: nat, n: nat) {
    |after| == |slots| && (forall k :: 0 <= k < i && k < |slots| ==> after[k] == slots[k])
    && forall k :: i <= k < |slots| ==> after[k] == Scanned1(slots[k], conn, fp, k, n)
  }

  // One slot more at the front of what was scanned.
  lemma ScannedMore(slots: seq<Slot>, after: seq<Slot>, conn: nat, fp: nat, i: nat, n: nat)
    requires i < |slots| && i < n
    requires ScannedAll(if Stale(slots[i], conn, fp) then slots[i := EMPTY] else slots, after, conn, fp, i + 1, n)
    ensures ScannedAll(slots, after, conn, fp, i, n)
  {
  }

  lemma NoneFitsMore(slots: seq<Slot>, rest: seq<Slot>, conn: nat, fp: nat, i: nat, n: nat)
    requires i < |slots| == |rest| && !Fit(slots[i], conn, fp) && NoneFits(rest, conn, fp, i + 1, n)
    requires forall k :: i < k < |slots| ==> rest[k] == slots[k]
    ensures NoneFits(slots, conn, fp, i, n)
  {
  }

  // A vacant slot the scan came upon at place i or later, if any; the first, where none was known before.
  ghost predicate VacantFound(slots: seq<Slot>, conn: nat, fp: nat, i: nat, dead: Option<nat>, found: Option<nat>) {
    && (found.Some? && found != dead ==> i <= found.value < |slots| && Vacant(slots[found.value], conn, fp))
    && (found.None? ==> dead.None? && forall k :: i <= k < |slots| ==> !Vacant(slots[k], conn, fp))
  }

  // The scan stops at the first fitting slot, having emptied the stale ones before it.
  lemma {:induction false} ScanStops(slots: seq<Slot>, conn: nat, fp: nat, i: nat, mine: nat, dead: Option<nat>)
    requires i <= |slots|
    ensures var r := Scan(slots, conn, fp, i, mine, dead);
            var n := if r.Found? then r.i else |slots|;
            && ScannedAll(slots, r.slots, conn, fp, i, n) && NoneFits(slots, conn, fp, i, n)
            && (r.Found? ==> i <= n < |slots| && Fit(slots[n], conn, fp))
            && (r.Searched? ==> VacantFound(slots, conn, fp, i, dead, r.dead))
    decreases |slots| - i
  {
    if i < |slots| && !Fit(slots[i], conn, fp) {
      var s := slots[i];
      var rest := if Stale(s, conn, fp) then slots[i := EMPTY] else slots;
      var mine' := if s.used && s.conn == conn && s.fp == fp then mine + 1 else mine;
      var dead' := if Vacant(s, conn, fp) && dead.None? then Some(i) else dead;
      var r := Scan(slots, conn, fp, i, mine, dead);
      assert r == Scan(rest, conn, fp, i + 1, mine', dead');
      ScanStops(rest, conn, fp, i + 1, mine', dead');
      hide Scan;
      var n := if r.Found? then r.i else |slots|;
      ScannedMore(slots, r.slots, conn, fp, i, n);
      NoneFitsMore(slots, rest, conn, fp, i, n);
    }
  }

  // ---- which steps close a session

  // An acquire that finds slot i stale before it finds a slot that fits.
  ghost predicate Outdated(s: State, t: nat, i: nat) {
    && t < |s.threads| && s.threads[t].Acquiring? && i < |s.slots|
    && Stale(s.slots[i], s.threads[t].conn, s.threads[t].fp)
    && NoneFits(s.slots, s.threads[t].conn, s.threads[t].fp, 0, i)
  }

  // An acquire that may open a session and has no slot for it but that of an idle one.
  ghost predicate Evicts(s: State, t: nat) {
    && t < |s.threads| && s.threads[t].Acquiring?
    && var conn, fp := s.threads[t].conn, s.threads[t].fp;
       && (forall k :: 0 <= k < |s.slots| ==>
             s.slots[k].used && !Fit(s.slots[k], conn, fp) && !Stale(s.slots[k], conn, fp) &&
             !Vacant(s.slots[k], conn, fp))
       && Tally(s.slots, conn, Labelled(fp)) < s.maxPer
  }

  // Event e closes session x, which is in slot i.
  ghost predicate Closes(s: State, e: Event, i: nat, x: Session)
    requires e.t < |s.threads| && i < |s.slots|
  {
    var th := s.threads[e.t];
    match e
    case Acquire(t, victim, _) => Outdated(s, t, i) || (Evicts(s, t) && victim == i && !s.slots[i].leased)
    case Opened(_, ok) => !ok && th.Opening? && th.slot == i
    case Release(_, healthy) => th.Holding? && th.sess == x && (!healthy || s.slots[i].fp == 0)
    case Invalidate(_) => th.Invalidating? && th.conn == x.conn && !s.slots[i].leased
    case TickEnd(_, alive) => th.Pinging? && th.sess == x && !alive
    case DestroyLook(_) => !AnyLeased(s.slots)
    case _ => false
  }

  lemma FoundCloses(s: State, t: nat, victim: nat, throttled: bool, i: nat, x: Session)
    requires Core(s) && Enabled(s, Acquire(t, victim, throttled)) && In(s, i, x)
    requires Scan(s.slots, s.threads[t].conn, s.threads[t].fp, 0, 0, None).Found?
    ensures In(AfterAcquire(s, t, victim, throttled), i, x) <==> !Outdated(s, t, i)
    ensures !Evicts(s, t)
  {
    var conn, fp := s.threads[t].conn, s.threads[t].fp;
    ScanStops(s.slots, conn, fp, 0, 0, None);
    var r := Scan(s.slots, conn, fp, 0, 0, None);
    assert r.slots[i] == Scanned1(s.slots[i], conn, fp, i, r.i);
    assert r.slots[r.i] == Scanned1(s.slots[r.i], conn, fp, r.i, r.i);
  }

  // After a search in vain a session is gone from its slot if that was stale, or gave way.
  lemma SearchedStays(s: State, t: nat, victim: nat, throttled: bool, i: nat, x: Session, r: Scanned)
    requires Core(s) && Enabled(s, Acquire(t, victim, throttled)) && In(s, i, x)
    requires r == Scan(s.slots, s.threads[t].conn, s.threads[t].fp, 0, 0, None) && r.Searched?
    requires |r.slots| == |s.slots| && (r.slots[i] == s.slots[i] || r.slots[i] == EMPTY)
    requires r.dead.Some? ==> r.dead.value < |r.slots| && r.slots[r.dead.value].inst.None?
    ensures In(AfterAcquire(s, t, victim, throttled), i, x) <==>
            && r.slots[i] == s.slots[i]
            && !(r.dead.None? && r.mine < s.maxPer && FirstUnused(r.slots) == |r.slots| && victim == i &&
                 !s.slots[i].leased)
  {
    hide Scan;
    assert SlotOk(s.slots[i]);
    if r.dead.Some? { assert r.dead.value != i || r.slots[i] == EMPTY; }
  }

  lemma SearchedCloses(s: State, t: nat, victim: nat, throttled: bool, i: nat, x: Session)
    requires Core(s) && Enabled(s, Acquire(t, victim, throttled)) && In(s, i, x)
    requires Scan(s.slots, s.threads[t].conn, s.threads[t].fp, 0, 0, None).Searched?
    ensures In(AfterAcquire(s, t, victim, throttled), i, x) <==>
            !(Outdated(s, t, i) || (Evicts(s, t) && victim == i && !s.slots[i].leased))
  {
    var conn, fp := s.threads[t].conn, s.threads[t].fp;
    assert ThreadOk(s.slots, s.threads[t]) && SlotOk(s.slots[i]);
    ScanStops(s.slots, conn, fp, 0, 0, None);
    ScanCounts(s.slots, conn, fp, 0, 0, None);
    var r := Scan(s.slots, conn, fp, 0, 0, None);
    hide Scan, AfterAcquire, Tally, FirstUnused;
    assert r.slots[i] == Scanned1(s.slots[i], conn, fp, i, |s.slots|);
    if r.dead.Some? {
      var k := r.dead.value;
      assert r.slots[k] == Scanned1(s.slots[k], conn, fp, k, |s.slots|);
    }
    SearchedStays(s, t, victim, throttled, i, x, r);
    SweptTally(s.slots, r.slots, conn, fp);
    SearchedEvicts(s, t, r.slots, r.mine, r.dead);
  }

  // Emptying slots of other configurations leaves the count of this one.
  lemma {:induction false} SweptTally(slots: seq<Slot>, after: seq<Slot>, conn: nat, fp: nat)
    requires |after| == |slots| && fp != 0
    requires forall k :: 0 <= k < |slots| ==> after[k] == if Stale(slots[k], conn, fp) then EMPTY else slots[k]
    ensures Tally(after, conn, Labelled(fp)) == Tally(slots, conn, Labelled(fp))
  {
    if slots != [] {
      assert after[0] == if Stale(slots[0], conn, fp) then EMPTY else slots[0];
      SweptTally(slots[1..], after[1..], conn, fp);
    }
  }

  // The search ends with an eviction exactly in that case.
  lemma SearchedEvicts(s: State, t: nat, after: seq<Slot>, mine: nat, dead: Option<nat>)
    requires Core(s) && t < |s.threads| && s.threads[t].Acquiring? && |after| == |s.slots|
    requires var conn, fp := s.threads[t].conn, s.threads[t].fp;
             && NoneFits(s.slots, conn, fp, 0, |s.slots|) && mine == Tally(s.slots, conn, Labelled(fp))
             && (forall k :: 0 <= k < |after| ==> after[k] == Scanned1(s.slots[k], conn, fp, k, |after|))
             && (dead.Some? ==> dead.value < |after| && Vacant(s.slots[dead.value], conn, fp))
             && (dead.None? ==> forall k :: 0 <= k < |after| ==> !Vacant(s.slots[k], conn, fp))
    ensures dead.None? && mine < s.maxPer && FirstUnused(after) == |after| <==> Evicts(s, t)
  {
    var conn, fp := s.threads[t].conn, s.threads[t].fp;
    forall k | 0 <= k < |after|
      ensures after[k].used <==> s.slots[k].used && !Stale(s.slots[k], conn, fp)
    {
      assert after[k] == Scanned1(s.slots[k], conn, fp, k, |after|);
    }
    var j := FirstUnused(after);
    if j < |after| { assert !after[j].used; }
  }

  lemma AcquireCloses(s: State, t: nat, victim: nat, throttled: bool, i: nat, x: Session)
    requires Core(s) && Enabled(s, Acquire(t, victim, throttled)) && In(s, i, x)
    ensures In(AfterAcquire(s, t, victim, throttled), i, x) <==> !Closes(s, Acquire(t, victim, throttled), i, x)
  {
    if Scan(s.slots, s.threads[t].conn, s.threads[t].fp, 0, 0, None).Found? {
      FoundCloses(s, t, victim, throttled, i, x);
    } else {
      SearchedCloses(s, t, victim, throttled, i, x);
    }
  }

  // The holder of the slot a session is in holds that session.
  lemma SessionSlot(s: State, t: nat, i: nat, x: Session)
    requires Core(s) && Numbered(s) && In(s, i, x) && t < |s.threads|
    requires s.threads[t].Holding? || s.threads[t].Pinging?
    ensures s.threads[t].slot == i <==> s.threads[t].sess == x
    ensures s.threads[t].slot < |s.slots|
  {
    assert ThreadOk(s.slots, s.threads[t]);
    assert In(s, s.threads[t].slot, s.threads[t].sess);
  }

  lemma StaysIff(s: State, e: Event, i: nat, x: Session)
    requires Inv(s) && Numbered(s) && Enabled(s, e) && In(s, i, x)
    ensures In(After(s, e), i, x) <==> !Closes(s, e, i, x)
  {
    assert SlotOk(s.slots[i]) && ThreadOk(s.slots, s.threads[e.t]);
    match e
    case Acquire(t, victim, throttled) => AcquireCloses(s, t, victim, throttled, i, x);
    case Load(t, loaded) =>
    case Opened(t, ok) =>
    case Release(t, healthy) => SessionSlot(s, t, i, x);
    case Invalidate(t) => assert After(s, e).slots[i] == Invalidated(s.slots[i], s.threads[t].conn);
    case TickLook(t, due) =>
    case TickEnd(t, alive) => SessionSlot(s, t, i, x);
    case DestroyLook(t) => if !AnyLeased(s.slots) { assert After(s, e).slots[i] == EMPTY; }
    case DestroyTimeout(t) =>
    case Rouse(t) =>
  }

  // A session is closed by exactly these steps: the end of its lease, if its holder calls it broken or its
  // connection was invalidated meanwhile; a ping that does not reach it; an opening that fails; an invalidation
  // that finds it idle; an acquire of its connection with another configuration, or of any for which the pool
  // has no other slot; and the end of the pool.
  lemma ClosedIff(s: State, e: Event, i: nat, x: Session)
    requires Inv(s) && Numbered(s) && Enabled(s, e) && In(s, i, x)
    ensures (forall j: nat :: !In(After(s, e), j, x)) <==> Closes(s, e, i, x)
  {
    StaysIff(s, e, i, x);
    forall j: nat | In(After(s, e), j, x) ensures j == i { SessionStays(s, e, j, x); }
  }

  // ---- and it is gone for good

  lemma ClosedForGood(s: State, e: Event, i: nat, x: Session, es: seq<Event>, s': State)
    requires Inv(s) && Numbered(s) && Enabled(s, e) && FairPick(s, e) && In(s, i, x) && Closes(s, e, i, x)
    requires Run(After(s, e), es, s')
    ensures forall j: nat :: !In(s', j, x)
  {
    ClosedIff(s, e, i, x);
    Kept(s, e);
    NumberedKept(s, e);
    GoneForGood(After(s, e), es, s', x);
  }

  lemma {:induction false} RunNumbered(s: State, es: seq<Event>, s': State)
    requires Inv(s) && Numbered(s) && Run(s, es, s')
    ensures Inv(s') && Numbered(s')
    decreases |es|
  {
    if es != [] {
      Kept(s, es[0]);
      NumberedKept(s, es[0]);
      RunNumbered(After(s, es[0]), es[1..], s');
    }
  }

  lemma ReachableNumbered(s0: State, es: seq<Event>, s: State)
    requires Initial(s0) && Run(s0, es, s)
    ensures Inv(s) && Numbered(s)
  {
    InitialInv(s0);
    InitialRest(s0);
    RunNumbered(s0, es, s);
  }

  // In every run: a session given back as broken is never in a slot again.
  lemma BrokenNeverAgain(s0: State, es: seq<Event>, s: State, t: nat, more: seq<Event>, s': State)
    requires Initial(s0) && Run(s0, es, s) && Enabled(s, Release(t, false)) && Run(AfterRelease(s, t, false), more, s')
    ensures forall j: nat :: !In(s', j, s.threads[t].sess)
  {
    ReachableNumbered(s0, es, s);
    assert ThreadOk(s.slots, s.threads[t]);
    ClosedForGood(s, Release(t, false), s.threads[t].slot, s.threads[t].sess, more, s');
  }

  // So with one that did not answer a ping.
  lemma SilentNeverAgain(s0: State, es: seq<Event>, s: State, t: nat, more: seq<Event>, s': State)
    requires Initial(s0) && Run(s0, es, s) && Enabled(s, TickEnd(t, false)) && Run(AfterTickEnd(s, t, false), more, s')
    ensures forall j: nat :: !In(s', j, s.threads[t].sess)
  {
    ReachableNumbered(s0, es, s);
    assert ThreadOk(s.slots, s.threads[t]);
    ClosedForGood(s, TickEnd(t, false), s.threads[t].slot, s.threads[t].sess, more, s');
  }

  // After an invalidation the sessions of its connection that are left are on lease; those of others are all there.
  lemma InvalidationLeaves(s: State, t: nat, i: nat, x: Session)
    requires Inv(s) && Numbered(s) && Enabled(s, Invalidate(t))
    ensures var s' := AfterInvalidate(s, t);
            In(s', i, x) <==> In(s, i, x) && (x.conn == s.threads[t].conn ==> s.slots[i].leased)
    ensures var s' := AfterInvalidate(s, t);
            In(s', i, x) && x.conn == s.threads[t].conn ==> s'.slots[i].leased && s'.slots[i].fp == 0
  {
    if In(AfterInvalidate(s, t), i, x) { SessionStays(s, Invalidate(t), i, x); }
    if In(s, i, x) {
      StaysIff(s, Invalidate(t), i, x);
      assert SlotOk(s.slots[i]);
      assert AfterInvalidate(s, t).slots[i] == Invalidated(s.slots[i], s.threads[t].conn);
    }
  }

  // ---- who is given a session

  // An acquire is given the first idle session of what it asks for, if there is one.
  lemma GivenFirst(s: State, t: nat, victim: nat, throttled: bool, k: nat)
    requires Core(s) && Enabled(s, Acquire(t, victim, throttled)) && k < |s.slots|
    requires var th := s.threads[t]; Fit(s.slots[k], th.conn, th.fp) && NoneFits(s.slots, th.conn, th.fp, 0, k)
    ensures var th := s.threads[t];
            AfterAcquire(s, t, victim, throttled).threads[t] == Holding(k, th.conn, th.fp, s.slots[k].inst.value)
  {
    var conn, fp := s.threads[t].conn, s.threads[t].fp;
    ScanStops(s.slots, conn, fp, 0, 0, None);
    var r := Scan(s.slots, conn, fp, 0, 0, None);
    var n := if r.Found? then r.i else |s.slots|;
    assert n <= k && r.Found?;
    assert r.slots[n] == Scanned1(s.slots[n], conn, fp, n, n);
  }

  ghost predicate HasVacant(slots: seq<Slot>, conn: nat, fp: nat) {
    exists k :: 0 <= k < |slots| && Vacant(slots[k], conn, fp)
  }

  // A slot to open a session in: unused, stale, or that of the idle session to give way.
  predicate Free(slots: seq<Slot>, conn: nat, fp: nat, victim: nat, k: nat) {
    k < |slots| && (!slots[k].used || Stale(slots[k], conn, fp) || (k == victim && !slots[k].leased))
  }

  ghost predicate HasFree(slots: seq<Slot>, conn: nat, fp: nat, victim: nat) {
    exists k: nat :: Free(slots, conn, fp, victim, k)
  }

  lemma FreeSwept(slots: seq<Slot>, after: seq<Slot>, conn: nat, fp: nat, victim: nat)
    requires |after| == |slots|
    requires forall k :: 0 <= k < |slots| ==> after[k] == if Stale(slots[k], conn, fp) then EMPTY else slots[k]
    ensures FirstUnused(after) < |after| || Evictable(after, victim) <==> HasFree(slots, conn, fp, victim)
    ensures FirstUnused(after) < |after| ==> Free(slots, conn, fp, victim, FirstUnused(after))
    ensures Evictable(after, victim) ==> Free(slots, conn, fp, victim, victim)
  {
    var j := FirstUnused(after);
    if j < |after| {
      assert after[j] == if Stale(slots[j], conn, fp) then EMPTY else slots[j];
      assert Free(slots, conn, fp, victim, j);
    }
    if victim < |after| {
      assert after[victim] == if Stale(slots[victim], conn, fp) then EMPTY else slots[victim];
      if Evictable(after, victim) { assert Free(slots, conn, fp, victim, victim); }
    }
    if k: nat :| Free(slots, conn, fp, victim, k) {
      assert after[k] == if Stale(slots[k], conn, fp) then EMPTY else slots[k];
    }
  }

  // Otherwise it opens one in a slot of its label without a session, unless the last try was too recent, which it
  // is told; or, while the label is below its limit, in a slot that is free for it; or else it waits.
  lemma GivenNone(s: State, t: nat, victim: nat, throttled: bool)
    requires Core(s) && Enabled(s, Acquire(t, victim, throttled))
    requires var th := s.threads[t]; NoneFits(s.slots, th.conn, th.fp, 0, |s.slots|)
    ensures var conn, fp := s.threads[t].conn, s.threads[t].fp;
            var th := AfterAcquire(s, t, victim, throttled).threads[t];
            if HasVacant(s.slots, conn, fp) then
              if throttled then th == Done
              else th.Opening? && th.slot < |s.slots| && Vacant(s.slots[th.slot], conn, fp)
            else if Tally(s.slots, conn, Labelled(fp)) < s.maxPer && HasFree(s.slots, conn, fp, victim) then
              th.Opening? && Free(s.slots, conn, fp, victim, th.slot)
            else th == Acquiring(conn, fp, true)
  {
    var conn, fp := s.threads[t].conn, s.threads[t].fp;
    assert ThreadOk(s.slots, s.threads[t]);
    ScanStops(s.slots, conn, fp, 0, 0, None);
    ScanCounts(s.slots, conn, fp, 0, 0, None);
    var r := Scan(s.slots, conn, fp, 0, 0, None);
    hide Scan, Tally, FirstUnused;
    assert r.Searched?;
    forall k | 0 <= k < |s.slots| ensures r.slots[k] == if Stale(s.slots[k], conn, fp) then EMPTY else s.slots[k] {
      assert r.slots[k] == Scanned1(s.slots[k], conn, fp, k, |s.slots|);
    }
    SweptTally(s.slots, r.slots, conn, fp);
    FreeSwept(s.slots, r.slots, conn, fp, victim);
    assert r.dead.Some? <==> HasVacant(s.slots, conn, fp) by {
      if r.dead.Some? { assert Vacant(s.slots[r.dead.value], conn, fp); }
    }
  }

  // The keepalive round pings exactly the idle sessions that are due, and takes them on lease for it.
  lemma PingsIff(s: State, t: nat, due: bool)
    requires Core(s) && Enabled(s, TickLook(t, due))
    ensures var i, s' := s.threads[t].at, AfterTickLook(s, t, due);
            && (s'.threads[t].Pinging? <==>
                  due && i < |s.slots| && s.slots[i].used && !s.slots[i].leased && s.slots[i].inst.Some?)
            && (s'.threads[t].Pinging? ==>
                  s'.threads[t] == Pinging(i, s.slots[i].inst.value) && s'.slots[i] == s.slots[i].(leased := true))
            && (!s'.threads[t].Pinging? ==>
                  s'.slots == s.slots && s'.threads[t] == if i < |s.slots| then Ticking(i + 1) else Done)
  {
  }

  // A session given back in order serves the next caller of its configuration: no other has to be opened.
  lemma HealthyServes(s: State, t: nat, u: nat, victim: nat, throttled: bool)
    requires Inv(s) && Enabled(s, Release(t, true)) && u < |s.threads| && u != t && s.threads[u].Acquiring?
    requires var x := s.threads[t].sess; x.conn == s.threads[u].conn && x.fp == s.threads[u].fp
    requires s.slots[s.threads[t].slot].fp != 0
    ensures var s1 := AfterRelease(s, t, true);
            && In(s1, s.threads[t].slot, s.threads[t].sess) && Enabled(s1, Acquire(u, victim, throttled))
            && AfterAcquire(s1, u, victim, throttled).threads[u].Holding?
  {
    var s1, i, x := AfterRelease(s, t, true), s.threads[t].slot, s.threads[t].sess;
    assert ThreadOk(s.slots, s.threads[t]) && SlotOk(s.slots[i]);
    CoreKept(s, Release(t, true));
    assert s1.threads[u] == Acquiring(x.conn, x.fp, false);
    assert SlotOk(s1.slots[i]);
    assert Fit(s1.slots[i], x.conn, x.fp);
    var k := FirstFit(s1.slots, x.conn, x.fp, i);
    GivenFirst(s1, u, victim, throttled, k);
  }

  lemma {:induction false} FirstFit(slots: seq<Slot>, conn: nat, fp: nat, i: nat) returns (k: nat)
    requires i < |slots| && Fit(slots[i], conn, fp)
    ensures k <= i && Fit(slots[k], conn, fp) && NoneFits(slots, conn, fp, 0, k)
  {
    if j: nat :| j < i && Fit(slots[j], conn, fp) {
      k := FirstFit(slots, conn, fp, j);
    } else {
      k := i;
    }
  }
}
