// Interleavings the connection pool does not guard against, step by step.

module ConnPoolExamples {
  import opened Shared
  import opened ConnPool
  import opened ConnPoolRuns
  import opened ConnPoolLimit

  const X := Session(0, 1, 1)
  const Y := Session(1, 1, 1)
  const Z := Session(1, 1, 2)

  // Three callers, a pool of two slots, and one session allowed for a connection.
  function Two(a: Slot, b: Slot, t: Thread, u: Thread, v: Thread, n: nat, rewritten: bool, pinged: bool): State {
    State([a, b], [t, u, v], 1, n, false, rewritten, pinged)
  }

  // A slot of connection 1 on lease.
  function Taken(opening: bool, fp: nat, inst: Option<Session>): Slot {
    Slot(true, true, opening, 1, fp, inst)
  }

  // ---- single steps

  ghost predicate Go(s: State, e: Event, s': State) {
    Enabled(s, e) && FairPick(s, e) && After(s, e) == s'
  }

  lemma Then(s: State, e: Event, s1: State, es: seq<Event>, s': State)
    requires Go(s, e, s1) && Run(s1, es, s')
    ensures Run(s, [e] + es, s')
  {
    assert ([e] + es)[1..] == es;
  }

  lemma ScanFresh(s: State, conn: nat, fp: nat)
    requires s.slots == [EMPTY, EMPTY]
    ensures Scan(s.slots, conn, fp, 0, 0, None) == Searched(s.slots, 0, None) && FirstUnused(s.slots) == 0
  {
    assert Scan(s.slots, conn, fp, 0, 0, None) == Scan(s.slots, conn, fp, 1, 0, None) ==
        Scan(s.slots, conn, fp, 2, 0, None);
  }

  // The first caller reserves the first slot.
  lemma ReserveFirst(s: State, t: nat)
    requires s.slots == [EMPTY, EMPTY] && s.maxPer == 1 && !s.closed && t < |s.threads|
    requires s.threads[t].Acquiring? && !s.threads[t].asleep && s.threads[t].conn == 1
    ensures var fp := s.threads[t].fp;
            Go(s, Acquire(t, 0, false),
               s.(slots := [Taken(true, fp, None), EMPTY], threads := s.threads[t := Opening(0, 1, fp, false)]))
  {
    ScanFresh(s, 1, s.threads[t].fp);
  }

  // Another caller passes over a leased slot with a label other than its own, and reserves the second.
  lemma ReserveSecond(s: State, t: nat, a: Slot)
    requires s.slots == [a, EMPTY] && a.used && a.leased && a.conn == 1
    requires s.maxPer == 1 && !s.closed && t < |s.threads|
    requires s.threads[t].Acquiring? && !s.threads[t].asleep && s.threads[t].conn == 1 && a.fp != s.threads[t].fp
    ensures var fp := s.threads[t].fp;
            Go(s, Acquire(t, 0, false),
               s.(slots := [a, Taken(true, fp, None)], threads := s.threads[t := Opening(1, 1, fp, false)]))
  {
    var fp := s.threads[t].fp;
    assert Scan(s.slots, 1, fp, 0, 0, None) == Scan(s.slots, 1, fp, 1, 0, None) == Scan(s.slots, 1, fp, 2, 0, None);
    assert s.slots[1..][0] == EMPTY;
    assert FirstUnused(s.slots) == 1;
    assert s.slots[1 := Taken(true, fp, None)] == [a, Taken(true, fp, None)];
  }

  lemma LoadStep(s: State, t: nat, i: nat, fp: nat)
    requires !s.closed && t < |s.threads| && s.threads[t] == Opening(i, 1, fp, false) && i < |s.slots|
    ensures Go(s, Load(t, true),
               s.(slots := s.slots[i := s.slots[i].(used := true, conn := 1, fp := fp,
                   inst := Some(Session(s.nextId, 1, fp)))],
                  threads := s.threads[t := Opening(i, 1, fp, true)], nextId := s.nextId + 1))
  {
  }

  lemma OpenedStep(s: State, t: nat, i: nat, fp: nat)
    requires !s.closed && t < |s.threads| && s.threads[t] == Opening(i, 1, fp, true)
    requires i < |s.slots| && s.slots[i].inst.Some?
    ensures Go(s, Opened(t, true),
               s.(slots := s.slots[i := s.slots[i].(opening := false)],
                  threads := s.threads[t := Holding(i, 1, fp, s.slots[i].inst.value)]))
  {
  }

  // ---- two configurations of one connection

  // Nothing is invalidated, and yet the connection has two live sessions where one is allowed.
  lemma TwoConfigurations() returns (s: State, es: seq<Event>, s': State)
    ensures Initial(s) && s.maxPer == 1 && Run(s, es, s') && !s'.rewritten && !s'.pinged
    ensures forall t :: 0 <= t < |s.threads| ==> !s.threads[t].Invalidating?
    ensures Tally(s'.slots, 1, Live) == 2
  {
    s, s' := T0, T4;
    es := OpenTwo();
    OpenTwoEnds();
  }

  const T0 := Two(EMPTY, EMPTY, Acquiring(1, 1, false), Acquiring(1, 2, false), Ticking(0), 0, false, false)
  const T4 := Two(Taken(true, 1, Some(X)), Taken(true, 2, Some(Z)), Opening(0, 1, 1, true), Opening(1, 1, 2, true),
                  Ticking(0), 2, false, false)

  lemma OpenTwo() returns (es: seq<Event>)
    ensures Run(T0, es, T4)
  {
    var b := Acquiring(1, 2, false);
    var s1 := Two(Taken(true, 1, None), EMPTY, Opening(0, 1, 1, false), b, Ticking(0), 0, false, false);
    var s2 := Two(Taken(true, 1, Some(X)), EMPTY, Opening(0, 1, 1, true), b, Ticking(0), 1, false, false);
    var s3 := Two(Taken(true, 1, Some(X)), Taken(true, 2, None), Opening(0, 1, 1, true), Opening(1, 1, 2, false),
                  Ticking(0), 1, false, false);
    ReserveFirst(T0, 0);
    LoadStep(s1, 0, 0, 1);
    ReserveSecond(s2, 1, Taken(true, 1, Some(X)));
    LoadStep(s3, 1, 1, 2);
    es := FourSteps(T0, Acquire(0, 0, false), s1, Load(0, true), s2, Acquire(1, 0, false), s3, Load(1, true), T4);
  }

  lemma OpenTwoEnds()
    ensures Initial(T0) && (forall t :: 0 <= t < |T0.threads| ==> !T0.threads[t].Invalidating?)
    ensures Tally(T4.slots, 1, Live) == 2
  {
    TwoLive(T4.slots);
  }

  lemma FourSteps(s0: State, a: Event, s1: State, b: Event, s2: State, c: Event, s3: State, d: Event, s4: State)
    returns (es: seq<Event>)
    requires Go(s0, a, s1) && Go(s1, b, s2) && Go(s2, c, s3) && Go(s3, d, s4)
    ensures Run(s0, es, s4)
  {
    assert Run(s4, [], s4);
    Then(s3, d, s4, [], s4);
    Then(s2, c, s3, [d] + [], s4);
    Then(s1, b, s2, [c] + ([d] + []), s4);
    Then(s0, a, s1, [b] + ([c] + ([d] + [])), s4);
    es := [a] + ([b] + ([c] + ([d] + [])));
  }

  lemma TwoLive(slots: seq<Slot>)
    requires |slots| == 2 && Is(slots[0], 1, Live) && Is(slots[1], 1, Live)
    ensures Tally(slots, 1, Live) == 2
  {
    assert slots[1..][0] == slots[1] && slots[1..][1..] == [];
    assert Tally(slots, 1, Live) == 1 + Tally(slots[1..], 1, Live) == 2 + Tally([], 1, Live);
  }

  lemma {:induction false} RunApp(s: State, es: seq<Event>, s1: State, fs: seq<Event>, s': State)
    requires Run(s, es, s1) && Run(s1, fs, s')
    ensures Run(s, es + fs, s')
    decreases |es|
  {
    if es == [] {
      assert es + fs == fs;
    } else {
      assert (es + fs)[1..] == es[1..] + fs;
      RunApp(After(s, es[0]), es[1..], s1, fs, s');
    }
  }

  // ---- an invalidation while the connection is in use

  const I0 := Two(EMPTY, EMPTY, Acquiring(1, 1, false), Invalidating(1), Acquiring(1, 1, false), 0, false, false)
  const I4 := Two(Taken(false, 0, Some(X)), EMPTY, Holding(0, 1, 1, X), Done, Acquiring(1, 1, false), 1, false, false)
  const I7 := Two(Taken(false, 0, Some(X)), Taken(false, 1, Some(Y)), Holding(0, 1, 1, X), Done, Holding(1, 1, 1, Y),
                  2, false, false)

  // One caller gets its session; then the connection is invalidated.
  lemma UseThenInvalidate() returns (es: seq<Event>)
    ensures Run(I0, es, I4)
  {
    var inv, c := Invalidating(1), Acquiring(1, 1, false);
    var s1 := Two(Taken(true, 1, None), EMPTY, Opening(0, 1, 1, false), inv, c, 0, false, false);
    var s2 := Two(Taken(true, 1, Some(X)), EMPTY, Opening(0, 1, 1, true), inv, c, 1, false, false);
    var s3 := Two(Taken(false, 1, Some(X)), EMPTY, Holding(0, 1, 1, X), inv, c, 1, false, false);
    ReserveFirst(I0, 0);
    LoadStep(s1, 0, 0, 1);
    OpenedStep(s2, 0, 0, 1);
    assert !HitsOpener(s3, 1) && !HitsPing(s3, 1);
    assert AfterInvalidate(s3, 1).slots == I4.slots;
    assert AfterInvalidate(s3, 1).threads == I4.threads;
    assert Go(s3, Invalidate(1), I4);
    es := FourSteps(I0, Acquire(0, 0, false), s1, Load(0, true), s2, Opened(0, true), s3, Invalidate(1), I4);
  }

  // The next caller does not count the session in use, which has lost its label.
  lemma OpenAnother() returns (es: seq<Event>)
    ensures Run(I4, es, I7)
  {
    var h := Holding(0, 1, 1, X);
    var a := Taken(false, 0, Some(X));
    var s5 := Two(a, Taken(true, 1, None), h, Done, Opening(1, 1, 1, false), 1, false, false);
    var s6 := Two(a, Taken(true, 1, Some(Y)), h, Done, Opening(1, 1, 1, true), 2, false, false);
    ReserveSecond(I4, 2, a);
    LoadStep(s5, 2, 1, 1);
    OpenedStep(s6, 2, 1, 1);
    assert Run(I7, [], I7);
    Then(s6, Opened(2, true), I7, [], I7);
    Then(s5, Load(2, true), s6, [Opened(2, true)] + [], I7);
    Then(I4, Acquire(2, 0, false), s5, [Load(2, true)] + ([Opened(2, true)] + []), I7);
    es := [Acquire(2, 0, false)] + ([Load(2, true)] + ([Opened(2, true)] + []));
  }

  // So the connection has two live sessions on lease, both opened with the configuration asked for, where one
  // is allowed; and no invalidation hit a session being opened.
  lemma InvalidatedInUse() returns (s: State, es: seq<Event>, s': State)
    ensures Initial(s) && s.maxPer == 1 && OneConfig(s, 1, 1) && Run(s, es, s') && !s'.rewritten && !s'.pinged
    ensures s'.threads == [Holding(0, 1, 1, X), Done, Holding(1, 1, 1, Y)]
    ensures Tally(s'.slots, 1, Live) == 2
  {
    var fs := UseThenInvalidate();
    var gs := OpenAnother();
    s, es, s' := Joined(I0, fs, I4, gs, I7);
    InUseEnds();
  }

  lemma InUseEnds()
    ensures Initial(I0) && OneConfig(I0, 1, 1) && Tally(I7.slots, 1, Live) == 2
  {
    TwoLive(I7.slots);
  }

  lemma Joined(s0: State, fs: seq<Event>, s1: State, gs: seq<Event>, s2: State)
    returns (s: State, es: seq<Event>, s': State)
    requires Run(s0, fs, s1) && Run(s1, gs, s2)
    ensures s == s0 && s' == s2 && Run(s, es, s')
  {
    RunApp(s0, fs, s1, gs, s2);
    s, es, s' := s0, fs + gs, s2;
  }

  // ---- an invalidation while a session is being opened

  const O0 := I0
  const O3 := Two(Taken(true, 0, None), Taken(true, 1, None), Opening(0, 1, 1, false), Done, Opening(1, 1, 1, false),
                  0, true, false)
  const O5 := Two(Taken(true, 1, Some(X)), Taken(true, 1, Some(Y)), Opening(0, 1, 1, true), Done,
                  Opening(1, 1, 1, true), 2, true, false)

  lemma OpenInvalidateOpen() returns (es: seq<Event>)
    ensures Run(O0, es, O3)
  {
    var c := Acquiring(1, 1, false);
    var s1 := Two(Taken(true, 1, None), EMPTY, Opening(0, 1, 1, false), Invalidating(1), c, 0, false, false);
    var s2 := Two(Taken(true, 0, None), EMPTY, Opening(0, 1, 1, false), Done, c, 0, true, false);
    ReserveFirst(O0, 0);
    assert s1.threads[0].conn == 1 && HitsOpener(s1, 1) && !HitsPing(s1, 1);
    assert AfterInvalidate(s1, 1).slots == s2.slots;
    assert AfterInvalidate(s1, 1).threads == s2.threads;
    assert Go(s1, Invalidate(1), s2);
    ReserveSecond(s2, 2, Taken(true, 0, None));
    assert Run(O3, [], O3);
    Then(s2, Acquire(2, 0, false), O3, [], O3);
    Then(s1, Invalidate(1), s2, [Acquire(2, 0, false)] + [], O3);
    Then(O0, Acquire(0, 0, false), s1, [Invalidate(1)] + ([Acquire(2, 0, false)] + []), O3);
    es := [Acquire(0, 0, false)] + ([Invalidate(1)] + ([Acquire(2, 0, false)] + []));
  }

  lemma LoadBoth() returns (es: seq<Event>)
    ensures Run(O3, es, O5)
  {
    var s4 := Two(Taken(true, 1, Some(X)), Taken(true, 1, None), Opening(0, 1, 1, true), Done, Opening(1, 1, 1, false),
                  1, true, false);
    LoadStep(O3, 0, 0, 1);
    LoadStep(s4, 2, 1, 1);
    assert Run(O5, [], O5);
    Then(s4, Load(2, true), O5, [], O5);
    Then(O3, Load(0, true), s4, [Load(2, true)] + [], O5);
    es := [Load(0, true)] + ([Load(2, true)] + []);
  }

  // The opener sets its label again: the invalidation is undone, and one configuration of the connection has
  // two live sessions where one is allowed.
  lemma OpeningUndoesInvalidation() returns (s: State, es: seq<Event>, s': State)
    ensures Initial(s) && s.maxPer == 1 && Run(s, es, s') && In(s', 0, X) && !Dead(s', 0, X)
    ensures Tally(s'.slots, 1, Labelled(1)) == 2 == Tally(s'.slots, 1, Live)
  {
    var fs := OpenInvalidateOpen();
    var gs := LoadBoth();
    s, es, s' := Joined(O0, fs, O3, gs, O5);
    OpeningEnds();
  }

  lemma OpeningEnds()
    ensures Initial(O0) && In(O5, 0, X) && !Dead(O5, 0, X)
    ensures Tally(O5.slots, 1, Labelled(1)) == 2 == Tally(O5.slots, 1, Live)
  {
    TwoLive(O5.slots);
    TallyLess(O5.slots, Labelled(1), O5.slots, Live, 1);
    TallyLess(O5.slots, Live, O5.slots, Labelled(1), 1);
  }

  // ---- an invalidation during a ping

  const P0 := Two(EMPTY, EMPTY, Acquiring(1, 1, false), Ticking(0), Invalidating(1), 0, false, false)
  const P4 := Two(Slot(true, false, false, 1, 1, Some(X)), EMPTY, Done, Ticking(0), Invalidating(1), 1, false, false)
  const P9 := Two(Slot(true, false, false, 1, 0, Some(X)), EMPTY, Done, Done, Done, 1, false, true)

  lemma UseThenRelease() returns (es: seq<Event>)
    ensures Run(P0, es, P4)
  {
    var k, inv := Ticking(0), Invalidating(1);
    var s1 := Two(Taken(true, 1, None), EMPTY, Opening(0, 1, 1, false), k, inv, 0, false, false);
    var s2 := Two(Taken(true, 1, Some(X)), EMPTY, Opening(0, 1, 1, true), k, inv, 1, false, false);
    var s3 := Two(Taken(false, 1, Some(X)), EMPTY, Holding(0, 1, 1, X), k, inv, 1, false, false);
    ReserveFirst(P0, 0);
    LoadStep(s1, 0, 0, 1);
    OpenedStep(s2, 0, 0, 1);
    assert AfterRelease(s3, 0, true).slots == P4.slots;
    assert AfterRelease(s3, 0, true).threads == P4.threads;
    assert Go(s3, Release(0, true), P4);
    es := FourSteps(P0, Acquire(0, 0, false), s1, Load(0, true), s2, Opened(0, true), s3, Release(0, true), P4);
  }

  lemma PingAcross() returns (es: seq<Event>)
    ensures Run(P4, es, P9)
  {
    var s5 := Two(Taken(false, 1, Some(X)), EMPTY, Done, Pinging(0, X), Invalidating(1), 1, false, false);
    var s6 := Two(Taken(false, 0, Some(X)), EMPTY, Done, Pinging(0, X), Done, 1, false, true);
    var s7 := Two(Slot(true, false, false, 1, 0, Some(X)), EMPTY, Done, Ticking(1), Done, 1, false, true);
    var s8 := Two(Slot(true, false, false, 1, 0, Some(X)), EMPTY, Done, Ticking(2), Done, 1, false, true);
    assert Go(P4, TickLook(1, true), s5);
    assert s5.threads[1].sess.conn == 1 && HitsPing(s5, 1) && !HitsOpener(s5, 1);
    assert AfterInvalidate(s5, 2).slots == s6.slots;
    assert AfterInvalidate(s5, 2).threads == s6.threads;
    assert Go(s5, Invalidate(2), s6);
    assert AfterTickEnd(s6, 1, true).slots == s7.slots;
    assert AfterTickEnd(s6, 1, true).threads == s7.threads;
    assert Go(s6, TickEnd(1, true), s7);
    assert Go(s7, TickLook(1, false), s8);
    var fs := FourSteps(P4, TickLook(1, true), s5, Invalidate(2), s6, TickEnd(1, true), s7, TickLook(1, false), s8);
    assert Go(s8, TickLook(1, false), P9);
    es := OneMore(P4, fs, s8, TickLook(1, false), P9);
  }

  lemma OneMore(s: State, fs: seq<Event>, s1: State, e: Event, s': State) returns (es: seq<Event>)
    requires Run(s, fs, s1) && Go(s1, e, s')
    ensures Run(s, es, s')
  {
    assert Run(s', [], s');
    Then(s1, e, s', [], s');
    RunApp(s, fs, s1, [e] + [], s');
    es := fs + ([e] + []);
  }

  lemma AllDoneRests(s: State)
    requires forall t :: 0 <= t < |s.threads| ==> s.threads[t].Done?
    ensures Resting(s)
  {
  }

  // The session survives its connection: when every call has returned it is open still, without a label.
  lemma PingKeepsInvalidated() returns (s: State, es: seq<Event>, s': State)
    ensures Initial(s) && Run(s, es, s') && Resting(s') && !s'.closed && Dead(s', 0, X)
  {
    var fs := UseThenRelease();
    var gs := PingAcross();
    s, es, s' := Joined(P0, fs, P4, gs, P9);
    PingEnds();
  }

  lemma PingEnds()
    ensures Initial(P0) && Resting(P9) && !P9.closed && Dead(P9, 0, X)
  {
    AllDoneRests(P9);
  }
}
