// The connection pool as a step system: one step for each stretch under the mutex, and the opening of a
// session, which happens outside it, as a step of its own.

module ConnPool {
  import opened Shared

  // A connection and the fingerprint of its configuration; fingerprint zero is the empty one.
  datatype Session = Session(id: nat, conn: nat, fp: nat)

  datatype Slot = Slot(used: bool, leased: bool, opening: bool, conn: nat, fp: nat, inst: Option<Session>)

  const EMPTY := Slot(false, false, false, 0, 0, None)

  // A caller, by what it is doing. Opening has reserved its slot and is outside the mutex; written once the
  // session is in the slot and the slot's labels have been set again.
  datatype Thread =
    | Acquiring(conn: nat, fp: nat, asleep: bool)
    | Opening(slot: nat, conn: nat, fp: nat, written: bool)
    | Holding(slot: nat, conn: nat, fp: nat, sess: Session)
    | Invalidating(conn: nat)
    | Ticking(at: nat)
    | Pinging(slot: nat, sess: Session)
    | Destroying(asleep: bool)
    | Done

  // maxPer is the number of sessions meant for one connection; closed once the pool is gone. rewritten: an
  // invalidation hit a slot whose opener had not yet set its labels again. pinged: one hit a slot under ping.
  datatype State = State(
    slots: seq<Slot>, threads: seq<Thread>, maxPer: nat, nextId: nat, closed: bool, rewritten: bool, pinged: bool)

  datatype Event =
    | Acquire(t: nat, victim: nat, throttled: bool)
    | Load(t: nat, loaded: bool)
    | Opened(t: nat, ok: bool)
    | Release(t: nat, healthy: bool)
    | Invalidate(t: nat)
    | TickLook(t: nat, due: bool)
    | TickEnd(t: nat, alive: bool)
    | DestroyLook(t: nat)
    | DestroyTimeout(t: nat)
    | Rouse(t: nat)

  // ---- the scan of acquire

  datatype Scanned =
    | Found(slots: seq<Slot>, i: nat)
    | Searched(slots: seq<Slot>, mine: nat, dead: Option<nat>)

  // Slots of the connection with another configuration are freed if idle; the first idle session is taken.
  function Scan(slots: seq<Slot>, conn: nat, fp: nat, i: nat, mine: nat, dead: Option<nat>): Scanned
    requires i <= |slots|
    decreases |slots| - i
  {
    if i == |slots| then Searched(slots, mine, dead)
    else
      var s := slots[i];
      if !s.used || s.conn != conn then Scan(slots, conn, fp, i + 1, mine, dead)
      else if s.fp != fp then
        Scan(if s.leased then slots else slots[i := EMPTY], conn, fp, i + 1, mine, dead)
      else if s.leased then Scan(slots, conn, fp, i + 1, mine + 1, dead)
      else if s.inst.Some? then Found(slots[i := s.(leased := true)], i)
      else Scan(slots, conn, fp, i + 1, mine + 1, if dead.None? then Some(i) else dead)
  }

  function FirstUnused(slots: seq<Slot>): (r: nat)
    ensures r <= |slots| && (r < |slots| ==> !slots[r].used)
    ensures forall k :: 0 <= k < r ==> slots[k].used
  {
    if slots == [] || !slots[0].used then 0 else 1 + FirstUnused(slots[1..])
  }

  // ---- steps

  predicate Asleep(th: Thread) {
    (th.Acquiring? && th.asleep) || (th.Destroying? && th.asleep)
  }

  function Wake(th: Thread): Thread {
    match th
    case Acquiring(c, f, _) => Acquiring(c, f, false)
    case Destroying(_) => Destroying(false)
    case _ => th
  }

  function WakeAll(ths: seq<Thread>): (r: seq<Thread>)
    ensures |r| == |ths| && forall i :: 0 <= i < |ths| ==> r[i] == Wake(ths[i])
  {
    seq(|ths|, i requires 0 <= i < |ths| => Wake(ths[i]))
  }

  predicate AnyLeased(slots: seq<Slot>) {
    exists i :: 0 <= i < |slots| && slots[i].used && slots[i].leased
  }

  // Whose lease a slot is on: a caller opening it, holding it or pinging it.
  predicate Holds(th: Thread, i: nat) {
    (th.Opening? || th.Holding? || th.Pinging?) && th.slot == i
  }

  predicate Enabled(s: State, e: Event) {
    && !s.closed && e.t < |s.threads|
    && var th := s.threads[e.t];
       match e
       case Acquire(_, _, _) => th.Acquiring? && !th.asleep
       case Load(_, _) => th.Opening? && !th.written && th.slot < |s.slots|
       case Opened(_, ok) =>
         th.Opening? && th.written && th.slot < |s.slots| && (ok ==> s.slots[th.slot].inst.Some?)
       case Release(_, _) => th.Holding? && th.slot < |s.slots|
       case Invalidate(_) => th.Invalidating?
       case TickLook(_, _) => th.Ticking?
       case TickEnd(_, _) => th.Pinging? && th.slot < |s.slots|
       case DestroyLook(_) => th.Destroying? && !th.asleep
       case DestroyTimeout(_) => th.Destroying? && th.asleep
       case Rouse(_) => Asleep(th)
  }

  // Reserving slot i for a caller about to open a session in it.
  function Reserve(s: State, slots: seq<Slot>, t: nat, i: nat, conn: nat, fp: nat): State
    requires t < |s.threads| && i < |slots|
  {
    s.(slots := slots[i := slots[i].(used := true, leased := true, opening := true, conn := conn, fp := fp)],
       threads := s.threads[t := Opening(i, conn, fp, false)])
  }

  predicate Evictable(slots: seq<Slot>, i: nat) {
    i < |slots| && slots[i].used && !slots[i].leased
  }

  // victim is the idle session to give way when every slot is used; throttled, that the last try to open
  // failed too recently.
  function AfterAcquire(s: State, t: nat, victim: nat, throttled: bool): State
    requires t < |s.threads| && s.threads[t].Acquiring?
  {
    var conn, fp := s.threads[t].conn, s.threads[t].fp;
    var r := Scan(s.slots, conn, fp, 0, 0, None);
    match r
    case Found(slots, i) =>
      if i < |slots| && slots[i].inst.Some? then
        s.(slots := slots, threads := s.threads[t := Holding(i, conn, fp, slots[i].inst.value)])
      else s
    case Searched(slots, mine, dead) =>
      if dead.Some? && dead.value < |slots| then
        if throttled then s.(slots := slots, threads := s.threads[t := Done])
        else Reserve(s, slots, t, dead.value, conn, fp)
      else if mine < s.maxPer && FirstUnused(slots) < |slots| then
        Reserve(s, slots, t, FirstUnused(slots), conn, fp)
      else if mine < s.maxPer && Evictable(slots, victim) then
        Reserve(s, slots[victim := EMPTY], t, victim, conn, fp)
      else
        s.(slots := slots, threads := s.threads[t := Acquiring(conn, fp, true)])
  }

  // connector_load, and the labels written a second time; no mutex is held.
  function AfterLoad(s: State, t: nat, loaded: bool): State
    requires Enabled(s, Load(t, loaded))
  {
    var th := s.threads[t];
    var x := if loaded then Some(Session(s.nextId, th.conn, th.fp)) else None;
    s.(slots := s.slots[th.slot := s.slots[th.slot].(used := true, conn := th.conn, fp := th.fp, inst := x)],
       threads := s.threads[t := th.(written := true)], nextId := s.nextId + 1)
  }

  // Back under the mutex; a session that did not answer has been unloaded.
  function AfterOpened(s: State, t: nat, ok: bool): State
    requires Enabled(s, Opened(t, ok))
  {
    var th := s.threads[t];
    var slot := s.slots[th.slot];
    if ok then
      s.(slots := s.slots[th.slot := slot.(opening := false)],
         threads := s.threads[t := Holding(th.slot, th.conn, th.fp, slot.inst.value)])
    else
      s.(slots := s.slots[th.slot := slot.(opening := false, leased := false, inst := None)],
         threads := WakeAll(s.threads[t := Done]))
  }

  function AfterRelease(s: State, t: nat, healthy: bool): State
    requires Enabled(s, Release(t, healthy))
  {
    var i := s.threads[t].slot;
    s.(slots := s.slots[i := if s.slots[i].fp == 0 || !healthy then EMPTY else s.slots[i].(leased := false)],
       threads := WakeAll(s.threads[t := Done]))
  }

  function Invalidated(slot: Slot, conn: nat): Slot {
    if !slot.used || slot.conn != conn then slot
    else if slot.leased then slot.(fp := 0)
    else EMPTY
  }

  function InvalidatedAll(slots: seq<Slot>, conn: nat): (r: seq<Slot>)
    ensures |r| == |slots| && forall i :: 0 <= i < |slots| ==> r[i] == Invalidated(slots[i], conn)
  {
    seq(|slots|, i requires 0 <= i < |slots| => Invalidated(slots[i], conn))
  }

  predicate HitsOpener(s: State, conn: nat) {
    exists u :: 0 <= u < |s.threads| && s.threads[u].Opening? && !s.threads[u].written && s.threads[u].conn == conn
  }

  predicate HitsPing(s: State, conn: nat) {
    exists u :: 0 <= u < |s.threads| && s.threads[u].Pinging? && s.threads[u].sess.conn == conn
  }

  function AfterInvalidate(s: State, t: nat): State
    requires Enabled(s, Invalidate(t))
  {
    var conn := s.threads[t].conn;
    s.(slots := InvalidatedAll(s.slots, conn), threads := WakeAll(s.threads[t := Done]),
       rewritten := s.rewritten || HitsOpener(s, conn), pinged := s.pinged || HitsPing(s, conn))
  }

  // The keepalive round looks at one slot after another; due, that it has been idle long enough.
  function AfterTickLook(s: State, t: nat, due: bool): State
    requires Enabled(s, TickLook(t, due))
  {
    var i := s.threads[t].at;
    if i >= |s.slots| then s.(threads := s.threads[t := Done])
    else
      var slot := s.slots[i];
      if !slot.used || slot.leased || slot.inst.None? || !due then s.(threads := s.threads[t := Ticking(i + 1)])
      else
        s.(slots := s.slots[i := slot.(leased := true)], threads := s.threads[t := Pinging(i, slot.inst.value)])
  }

  function AfterTickEnd(s: State, t: nat, alive: bool): State
    requires Enabled(s, TickEnd(t, alive))
  {
    var i := s.threads[t].slot;
    var slot := s.slots[i].(leased := false);
    s.(slots := s.slots[i := if alive then slot else slot.(inst := None)],
       threads := WakeAll(s.threads[t := Ticking(i + 1)]))
  }

  function AllFreed(slots: seq<Slot>): (r: seq<Slot>)
    ensures |r| == |slots| && forall i :: 0 <= i < |slots| ==> r[i] == if slots[i].used then EMPTY else slots[i]
  {
    seq(|slots|, i requires 0 <= i < |slots| => if slots[i].used then EMPTY else slots[i])
  }

  function AfterDestroyLook(s: State, t: nat): State
    requires Enabled(s, DestroyLook(t))
  {
    if AnyLeased(s.slots) then s.(threads := s.threads[t := Destroying(true)])
    else s.(slots := AllFreed(s.slots), threads := s.threads[t := Done], closed := true)
  }

  function After(s: State, e: Event): State
    requires Enabled(s, e)
  {
    match e
    case Acquire(t, victim, throttled) => AfterAcquire(s, t, victim, throttled)
    case Load(t, loaded) => AfterLoad(s, t, loaded)
    case Opened(t, ok) => AfterOpened(s, t, ok)
    case Release(t, healthy) => AfterRelease(s, t, healthy)
    case Invalidate(t) => AfterInvalidate(s, t)
    case TickLook(t, due) => AfterTickLook(s, t, due)
    case TickEnd(t, alive) => AfterTickEnd(s, t, alive)
    case DestroyLook(t) => AfterDestroyLook(s, t)
    case DestroyTimeout(t) => s.(threads := s.threads[t := Done])
    case Rouse(t) => s.(threads := s.threads[t := Wake(s.threads[t])])
  }

  // ---- what the scan does

  // One slot before and after a scan that took slot got, if any.
  ghost predicate ScanSlot(before: Slot, after: Slot, conn: nat, fp: nat, got: bool) {
    if got then
      && before.used && !before.leased && before.conn == conn && before.fp == fp && before.inst.Some?
      && after == before.(leased := true)
    else after == before || (before.used && !before.leased && before.conn == conn && before.fp != fp && after == EMPTY)
  }

  ghost predicate ScanOk(slots: seq<Slot>, r: Scanned, conn: nat, fp: nat) {
    && |r.slots| == |slots|
    && (r.Found? ==> r.i < |slots|)
    && (forall k {:trigger r.slots[k]} :: 0 <= k < |slots| ==>
          ScanSlot(slots[k], r.slots[k], conn, fp, r.Found? && r.i == k))
    && (r.Searched? && r.dead.Some? ==>
          && r.dead.value < |slots|
          && var d := r.slots[r.dead.value];
             d.used && !d.leased && d.conn == conn && d.fp == fp && d.inst.None?)
    && (r.Searched? && r.dead.None? && r.mine > 0 ==> AnyLeased(r.slots))
  }

  lemma {:induction false} ScanWorks(slots: seq<Slot>, conn: nat, fp: nat, i: nat, mine: nat, dead: Option<nat>)
    requires i <= |slots| && fp != 0
    requires dead.Some? ==> dead.value < i && var d := slots[dead.value];
             d.used && !d.leased && d.conn == conn && d.fp == fp && d.inst.None?
    requires dead.None? && mine > 0 ==> exists k :: 0 <= k < i && slots[k].used && slots[k].leased
    ensures ScanOk(slots, Scan(slots, conn, fp, i, mine, dead), conn, fp)
    decreases |slots| - i
  {
    var r := Scan(slots, conn, fp, i, mine, dead);
    if i < |slots| {
      var s := slots[i];
      if !s.used || s.conn != conn {
        ScanWorks(slots, conn, fp, i + 1, mine, dead);
      } else if s.fp != fp {
        var slots' := if s.leased then slots else slots[i := EMPTY];
        if k :| dead.None? && mine > 0 && 0 <= k < i && slots[k].used && slots[k].leased {
          assert slots'[k].used && slots'[k].leased;
        }
        ScanWorks(slots', conn, fp, i + 1, mine, dead);
        forall k {:trigger r.slots[k]} | 0 <= k < |slots|
          ensures ScanSlot(slots[k], r.slots[k], conn, fp, r.Found? && r.i == k)
        {
          assert ScanSlot(slots'[k], r.slots[k], conn, fp, r.Found? && r.i == k);
        }
      } else if s.leased {
        ScanWorks(slots, conn, fp, i + 1, mine + 1, dead);
      } else if s.inst.None? {
        ScanWorks(slots, conn, fp, i + 1, mine + 1, if dead.None? then Some(i) else dead);
      }
    }
  }

  // ---- counting the slots of a connection

  // All of them, those with a session, those on lease, and those labelled with one configuration.
  datatype Kind = Used | Live | Leased | Labelled(fp: nat)

  predicate Is(slot: Slot, conn: nat, kind: Kind) {
    slot.used && slot.conn == conn &&
    match kind
    case Used => true
    case Live => slot.inst.Some?
    case Leased => slot.leased
    case Labelled(fp) => slot.fp == fp
  }

  function Tally(slots: seq<Slot>, conn: nat, kind: Kind): nat {
    if slots == [] then 0 else (if Is(slots[0], conn, kind) then 1 else 0) + Tally(slots[1..], conn, kind)
  }

  lemma {:induction false} TallyLess(a: seq<Slot>, ka: Kind, b: seq<Slot>, kb: Kind, conn: nat)
    requires |a| == |b| && forall i :: 0 <= i < |a| ==> Is(b[i], conn, kb) ==> Is(a[i], conn, ka)
    ensures Tally(b, conn, kb) <= Tally(a, conn, ka)
  {
    if a != [] {
      assert Is(b[0], conn, kb) ==> Is(a[0], conn, ka);
      TallyLess(a[1..], ka, b[1..], kb, conn);
    }
  }

  lemma {:induction false} TallySet(slots: seq<Slot>, i: nat, slot: Slot, conn: nat, kind: Kind)
    requires i < |slots|
    ensures Tally(slots[i := slot], conn, kind) + (if Is(slots[i], conn, kind) then 1 else 0) ==
            Tally(slots, conn, kind) + (if Is(slot, conn, kind) then 1 else 0)
  {
    if i == 0 {
      assert slots[0 := slot][1..] == slots[1..];
    } else {
      assert slots[i := slot][1..] == slots[1..][i - 1 := slot];
      TallySet(slots[1..], i - 1, slot, conn, kind);
    }
  }

  lemma {:induction false} TallySnoc(slots: seq<Slot>, slot: Slot, conn: nat, kind: Kind)
    ensures Tally(slots + [slot], conn, kind) == Tally(slots, conn, kind) + (if Is(slot, conn, kind) then 1 else 0)
  {
    if slots == [] {
      assert [slot][1..] == [];
    } else {
      assert (slots + [slot])[1..] == slots[1..] + [slot];
      TallySnoc(slots[1..], slot, conn, kind);
    }
  }

  lemma {:induction false} NoneTallied(slots: seq<Slot>, conn: nat, kind: Kind)
    requires forall i :: 0 <= i < |slots| ==> !slots[i].used
    ensures Tally(slots, conn, kind) == 0
  {
    if slots != [] { NoneTallied(slots[1..], conn, kind); }
  }

  // ---- the invariant

  ghost predicate SlotOk(slot: Slot) {
    && (!slot.used ==> slot == EMPTY)
    && (slot.opening ==> slot.leased)
    && (slot.inst.Some? ==>
          && slot.inst.value.conn == slot.conn && slot.inst.value.fp != 0
          && (slot.fp == 0 || slot.fp == slot.inst.value.fp))
  }

  // What a caller may rely on in its slot.
  ghost predicate ThreadOk(slots: seq<Slot>, th: Thread) {
    match th
    case Acquiring(_, fp, _) => fp != 0
    case Opening(i, conn, fp, written) =>
      && i < |slots| && fp != 0 && slots[i].leased && slots[i].opening && slots[i].conn == conn
      && slots[i].fp in {0, fp}
      && (if written then slots[i].inst.Some? ==> slots[i].inst.value.fp == fp else slots[i].inst.None?)
    case Holding(i, conn, fp, x) =>
      && i < |slots| && slots[i].leased && !slots[i].opening && slots[i].inst == Some(x)
      && x.conn == conn && x.fp == fp
    case Pinging(i, x) =>
      i < |slots| && slots[i].leased && !slots[i].opening && slots[i].inst == Some(x)
    case _ => true
  }

  ghost predicate HeldBy(s: State, t: nat, i: nat) {
    t < |s.threads| && Holds(s.threads[t], i)
  }

  // A slot on lease is on exactly one.
  ghost predicate Exclusive(s: State) {
    && (forall t: nat, u: nat, i: nat :: HeldBy(s, t, i) && HeldBy(s, u, i) ==> t == u)
    && (forall i: nat :: i < |s.slots| && s.slots[i].leased ==> exists t: nat :: HeldBy(s, t, i))
  }

  ghost predicate Core(s: State) {
    && (forall i {:trigger s.slots[i]} :: 0 <= i < |s.slots| ==> SlotOk(s.slots[i]))
    && (forall t {:trigger s.threads[t]} :: 0 <= t < |s.threads| ==> ThreadOk(s.slots, s.threads[t]))
    && Exclusive(s)
  }

  // Whoever sleeps waits for a lease, whose end will wake it.
  ghost predicate SleepersWait(s: State) {
    (exists t: nat :: t < |s.threads| && Asleep(s.threads[t])) ==> AnyLeased(s.slots)
  }

  // ---- keeping it

  // Idle slots may be emptied.
  lemma Emptied(s: State, slots: seq<Slot>)
    requires Core(s) && |slots| == |s.slots|
    requires forall i :: 0 <= i < |slots| ==> slots[i] == s.slots[i] || (!s.slots[i].leased && slots[i] == EMPTY)
    ensures Core(s.(slots := slots))
  {
    var s' := s.(slots := slots);
    forall t {:trigger s'.threads[t]} | 0 <= t < |s'.threads| ensures ThreadOk(slots, s'.threads[t]) {
      assert ThreadOk(s.slots, s.threads[t]);
    }
    forall i: nat | i < |slots| && slots[i].leased ensures exists t: nat :: HeldBy(s', t, i) {
      var t: nat :| HeldBy(s, t, i);
      assert HeldBy(s', t, i);
    }
    forall t: nat, u: nat, i: nat | HeldBy(s', t, i) && HeldBy(s', u, i) ensures t == u {
      assert HeldBy(s, t, i) && HeldBy(s, u, i);
    }
  }

  // Caller t moves on, and with it the one slot i it has, or takes or gives up.
  lemma Moved(s: State, s': State, t: nat, i: nat)
    requires Core(s) && t < |s.threads| && i < |s.slots| == |s'.slots| && |s'.threads| == |s.threads|
    requires s'.slots == s.slots[i := s'.slots[i]]
    requires forall u :: 0 <= u < |s.threads| && u != t ==>
               s'.threads[u] == s.threads[u] || s'.threads[u] == Wake(s.threads[u])
    requires forall u: nat :: u != t ==> !HeldBy(s, u, i)
    requires forall j: nat :: j != i ==> !Holds(s.threads[t], j) && !Holds(s'.threads[t], j)
    requires SlotOk(s'.slots[i]) && ThreadOk(s'.slots, s'.threads[t])
    requires s'.slots[i].leased <==> Holds(s'.threads[t], i)
    ensures Core(s')
  {
    forall u {:trigger s'.threads[u]} | 0 <= u < |s'.threads| ensures ThreadOk(s'.slots, s'.threads[u]) {
      if u != t {
        assert ThreadOk(s.slots, s.threads[u]) && !HeldBy(s, u, i);
      }
    }
    forall u: nat, j: nat ensures HeldBy(s', u, j) ==> (u == t && j == i) || (u != t && HeldBy(s, u, j)) { }
    forall j: nat | j < |s'.slots| && s'.slots[j].leased ensures exists u: nat :: HeldBy(s', u, j) {
      if j == i {
        assert HeldBy(s', t, i);
      } else {
        var u: nat :| HeldBy(s, u, j);
        assert HeldBy(s', u, j);
      }
    }
  }

  // A caller that holds nothing in this state, and an idle slot.
  lemma NoneHolds(s: State, i: nat)
    requires Core(s) && i < |s.slots| && !s.slots[i].leased
    ensures forall u: nat :: !HeldBy(s, u, i)
  {
    forall u: nat ensures !HeldBy(s, u, i) {
      if u < |s.threads| { assert ThreadOk(s.slots, s.threads[u]); }
    }
  }

  lemma ReserveKept(s: State, slots: seq<Slot>, t: nat, i: nat)
    requires Core(s.(slots := slots)) && t < |s.threads| && s.threads[t].Acquiring? && i < |slots|
    requires !slots[i].leased && slots[i].inst.None?
    ensures Core(Reserve(s, slots, t, i, s.threads[t].conn, s.threads[t].fp))
  {
    var s0 := s.(slots := slots);
    NoneHolds(s0, i);
    assert ThreadOk(slots, s0.threads[t]);
    assert SlotOk(slots[i]);
    Moved(s0, Reserve(s, slots, t, i, s.threads[t].conn, s.threads[t].fp), t, i);
  }

  lemma ThreadOnly(s: State, s': State, t: nat)
    requires Core(s) && t < |s.threads| && s'.slots == s.slots && |s'.threads| == |s.threads|
    requires forall u :: 0 <= u < |s.threads| && u != t ==> s'.threads[u] == s.threads[u]
    requires forall j: nat :: !Holds(s.threads[t], j) && !Holds(s'.threads[t], j)
    requires ThreadOk(s'.slots, s'.threads[t])
    ensures Core(s')
  {
    forall u: nat, j: nat ensures HeldBy(s', u, j) <==> HeldBy(s, u, j) { }
    forall u {:trigger s'.threads[u]} | 0 <= u < |s'.threads| ensures ThreadOk(s'.slots, s'.threads[u]) {
      assert u != t ==> ThreadOk(s.slots, s.threads[u]);
    }
  }

  // The slots after the scan, but for the one taken.
  function Swept(s: State, conn: nat, fp: nat): seq<Slot> {
    var r := Scan(s.slots, conn, fp, 0, 0, None);
    if r.Found? && r.i < |r.slots| && r.i < |s.slots| then r.slots[r.i := s.slots[r.i]] else r.slots
  }

  lemma SweptKept(s: State, conn: nat, fp: nat)
    requires Core(s) && fp != 0
    ensures ScanOk(s.slots, Scan(s.slots, conn, fp, 0, 0, None), conn, fp)
    ensures Core(s.(slots := Swept(s, conn, fp)))
    ensures |Swept(s, conn, fp)| == |s.slots|
    ensures forall k :: 0 <= k < |s.slots| ==>
              Swept(s, conn, fp)[k] == s.slots[k] || (!s.slots[k].leased && Swept(s, conn, fp)[k] == EMPTY)
  {
    var r := Scan(s.slots, conn, fp, 0, 0, None);
    var slots := Swept(s, conn, fp);
    ScanWorks(s.slots, conn, fp, 0, 0, None);
    forall k | 0 <= k < |slots| ensures slots[k] == s.slots[k] || (!s.slots[k].leased && slots[k] == EMPTY) {
      assert ScanSlot(s.slots[k], r.slots[k], conn, fp, r.Found? && r.i == k);
    }
    Emptied(s, slots);
  }

  lemma FoundKept(s: State, t: nat, victim: nat, throttled: bool)
    requires Core(s) && Enabled(s, Acquire(t, victim, throttled))
    requires Scan(s.slots, s.threads[t].conn, s.threads[t].fp, 0, 0, None).Found?
    ensures Core(AfterAcquire(s, t, victim, throttled))
  {
    var th := s.threads[t];
    assert ThreadOk(s.slots, th);
    SweptKept(s, th.conn, th.fp);
    var r := Scan(s.slots, th.conn, th.fp, 0, 0, None);
    var s0 := s.(slots := Swept(s, th.conn, th.fp));
    assert ScanSlot(s.slots[r.i], r.slots[r.i], th.conn, th.fp, true);
    NoneHolds(s0, r.i);
    assert SlotOk(s0.slots[r.i]);
    Moved(s0, AfterAcquire(s, t, victim, throttled), t, r.i);
  }

  lemma SearchedKept(s: State, t: nat, victim: nat, throttled: bool)
    requires Core(s) && Enabled(s, Acquire(t, victim, throttled))
    requires Scan(s.slots, s.threads[t].conn, s.threads[t].fp, 0, 0, None).Searched?
    ensures Core(AfterAcquire(s, t, victim, throttled))
  {
    hide Reserve;
    var th := s.threads[t];
    assert ThreadOk(s.slots, th);
    SweptKept(s, th.conn, th.fp);
    var r := Scan(s.slots, th.conn, th.fp, 0, 0, None);
    var s' := AfterAcquire(s, t, victim, throttled);
    var s0 := s.(slots := r.slots);
    if r.dead.Some? {
      if throttled { ThreadOnly(s0, s', t); } else { ReserveKept(s, r.slots, t, r.dead.value); }
    } else if r.mine < s.maxPer && FirstUnused(r.slots) < |r.slots| {
      assert SlotOk(s0.slots[FirstUnused(r.slots)]);
      ReserveKept(s, r.slots, t, FirstUnused(r.slots));
    } else if r.mine < s.maxPer && Evictable(r.slots, victim) {
      Emptied(s0, r.slots[victim := EMPTY]);
      assert s0.(slots := r.slots[victim := EMPTY]) == s.(slots := r.slots[victim := EMPTY]);
      ReserveKept(s, r.slots[victim := EMPTY], t, victim);
    } else {
      ThreadOnly(s0, s', t);
    }
  }

  lemma AcquireKept(s: State, t: nat, victim: nat, throttled: bool)
    requires Core(s) && Enabled(s, Acquire(t, victim, throttled))
    ensures Core(AfterAcquire(s, t, victim, throttled))
  {
    if Scan(s.slots, s.threads[t].conn, s.threads[t].fp, 0, 0, None).Found? {
      FoundKept(s, t, victim, throttled);
    } else {
      SearchedKept(s, t, victim, throttled);
    }
  }

  // Whoever has slot i is its only holder.
  lemma OnlyHolder(s: State, t: nat)
    requires Core(s) && t < |s.threads| && (s.threads[t].Opening? || s.threads[t].Holding? || s.threads[t].Pinging?)
    ensures forall u: nat :: u != t ==> !HeldBy(s, u, s.threads[t].slot)
    ensures ThreadOk(s.slots, s.threads[t]) && s.threads[t].slot < |s.slots| && SlotOk(s.slots[s.threads[t].slot])
  {
    assert HeldBy(s, t, s.threads[t].slot);
    assert ThreadOk(s.slots, s.threads[t]);
  }

  lemma InvalidateKept(s: State, t: nat)
    requires Core(s) && Enabled(s, Invalidate(t))
    ensures Core(AfterInvalidate(s, t))
  {
    var s' := AfterInvalidate(s, t);
    var conn := s.threads[t].conn;
    forall i {:trigger s'.slots[i]} | 0 <= i < |s'.slots| ensures SlotOk(s'.slots[i]) {
      assert s'.slots[i] == Invalidated(s.slots[i], conn) && SlotOk(s.slots[i]);
    }
    forall u {:trigger s'.threads[u]} | 0 <= u < |s'.threads| ensures ThreadOk(s'.slots, s'.threads[u]) {
      assert ThreadOk(s.slots, s.threads[u]);
      if u != t && (s.threads[u].Opening? || s.threads[u].Holding? || s.threads[u].Pinging?) {
        var i := s.threads[u].slot;
        assert s'.slots[i] == Invalidated(s.slots[i], conn) && SlotOk(s.slots[i]);
      }
    }
    forall u: nat, i: nat ensures HeldBy(s', u, i) <==> HeldBy(s, u, i) { }
    forall i: nat | i < |s'.slots| && s'.slots[i].leased ensures exists u: nat :: HeldBy(s', u, i) {
      assert s'.slots[i] == Invalidated(s.slots[i], conn);
      var u: nat :| HeldBy(s, u, i);
      assert HeldBy(s', u, i);
    }
  }

  lemma TickLookKept(s: State, t: nat, due: bool)
    requires Core(s) && Enabled(s, TickLook(t, due))
    ensures Core(AfterTickLook(s, t, due))
  {
    var i := s.threads[t].at;
    var s' := AfterTickLook(s, t, due);
    if s'.slots == s.slots {
      if !s'.threads[t].Pinging? {
        ThreadOnly(s, s', t);
        return;
      }
    }
    NoneHolds(s, i);
    assert SlotOk(s.slots[i]);
    Moved(s, s', t, i);
  }

  lemma DestroyKept(s: State, t: nat)
    requires Core(s) && Enabled(s, DestroyLook(t))
    ensures Core(AfterDestroyLook(s, t))
  {
    var s' := AfterDestroyLook(s, t);
    if AnyLeased(s.slots) {
      ThreadOnly(s, s', t);
    } else {
      forall i | 0 <= i < |s.slots| ensures !s.slots[i].leased { assert SlotOk(s.slots[i]); }
      Emptied(s, AllFreed(s.slots));
      ThreadOnly(s.(slots := AllFreed(s.slots)), s', t);
    }
  }

  // Steps of the thread that holds a slot.
  lemma HolderKept(s: State, e: Event)
    requires Core(s) && Enabled(s, e) && (e.Load? || e.Opened? || e.Release? || e.TickEnd?)
    ensures Core(After(s, e))
  {
    OnlyHolder(s, e.t);
    Moved(s, After(s, e), e.t, s.threads[e.t].slot);
  }

  lemma CoreKept(s: State, e: Event)
    requires Core(s) && Enabled(s, e)
    ensures Core(After(s, e))
  {
    hide Exclusive, HeldBy;
    var s' := After(s, e);
    match e
    case Acquire(t, victim, throttled) => AcquireKept(s, t, victim, throttled);
    case Load(t, loaded) => HolderKept(s, e);
    case Opened(t, ok) => HolderKept(s, e);
    case Release(t, healthy) => HolderKept(s, e);
    case Invalidate(t) => InvalidateKept(s, t);
    case TickLook(t, due) => TickLookKept(s, t, due);
    case TickEnd(t, alive) => HolderKept(s, e);
    case DestroyLook(t) => DestroyKept(s, t);
    case DestroyTimeout(t) => ThreadOnly(s, s', t);
    case Rouse(t) => assert ThreadOk(s.slots, s.threads[t]); ThreadOnly(s, s', t);
  }

  // ---- a lease is safe from everyone else

  // A step of t leaves a slot on lease to another alone; an invalidation only takes its label.
  ghost predicate LeftAlone(s: State, s': State, i: nat) {
    i < |s.slots| == |s'.slots| && (s'.slots[i] == s.slots[i] || s'.slots[i] == s.slots[i].(fp := 0))
  }

  lemma AcquireLeaves(s: State, t: nat, victim: nat, throttled: bool, i: nat)
    requires Core(s) && Enabled(s, Acquire(t, victim, throttled)) && i < |s.slots| && s.slots[i].leased
    ensures var s' := AfterAcquire(s, t, victim, throttled); |s'.slots| == |s.slots| && s'.slots[i] == s.slots[i]
  {
    var th := s.threads[t];
    assert ThreadOk(s.slots, th) && SlotOk(s.slots[i]);
    ScanWorks(s.slots, th.conn, th.fp, 0, 0, None);
    var r := Scan(s.slots, th.conn, th.fp, 0, 0, None);
    assert ScanSlot(s.slots[i], r.slots[i], th.conn, th.fp, r.Found? && r.i == i);
    assert r.slots[i] == s.slots[i];
  }

  // What acquire does to one slot: nothing, free it, reserve it empty, or take its session, whose label fits.
  ghost predicate AcquiredSlot(before: Slot, after: Slot, mine: bool, conn: nat, fp: nat) {
    || (after == before && !mine)
    || (!before.leased && after == EMPTY && !mine)
    || (!before.leased && mine && after == Slot(true, true, true, conn, fp, None))
    || (!before.leased && mine && after == before.(leased := true) && before.inst.Some? && before.fp == fp &&
        before.conn == conn)
  }

  lemma FoundSlot(s: State, t: nat, victim: nat, throttled: bool, i: nat)
    requires Core(s) && Enabled(s, Acquire(t, victim, throttled)) && i < |s.slots|
    requires Scan(s.slots, s.threads[t].conn, s.threads[t].fp, 0, 0, None).Found?
    ensures var s' := AfterAcquire(s, t, victim, throttled);
            && |s'.slots| == |s.slots| && |s'.threads| == |s.threads|
            && AcquiredSlot(s.slots[i], s'.slots[i], HeldBy(s', t, i), s.threads[t].conn, s.threads[t].fp)
  {
    var th := s.threads[t];
    assert ThreadOk(s.slots, th) && SlotOk(s.slots[i]);
    ScanWorks(s.slots, th.conn, th.fp, 0, 0, None);
    var r := Scan(s.slots, th.conn, th.fp, 0, 0, None);
    assert ScanSlot(s.slots[i], r.slots[i], th.conn, th.fp, r.Found? && r.i == i);
    assert ScanSlot(s.slots[r.i], r.slots[r.i], th.conn, th.fp, true);
  }

  // Reserving slot j, which is not on lease and holds no session, as slot i sees it.
  lemma ReservedSlot(s: State, slots: seq<Slot>, t: nat, j: nat, conn: nat, fp: nat, i: nat, before: Slot)
    requires t < |s.threads| && j < |slots| && i < |slots|
    requires !slots[j].leased && slots[j].inst.None?
    requires slots[i] == before || (!before.leased && slots[i] == EMPTY)
    ensures var s' := Reserve(s, slots, t, j, conn, fp);
            && |s'.slots| == |slots| && |s'.threads| == |s.threads|
            && AcquiredSlot(before, s'.slots[i], HeldBy(s', t, i), conn, fp)
  {
  }

  lemma SearchedSlot(s: State, t: nat, victim: nat, throttled: bool, i: nat)
    requires Core(s) && Enabled(s, Acquire(t, victim, throttled)) && i < |s.slots|
    requires Scan(s.slots, s.threads[t].conn, s.threads[t].fp, 0, 0, None).Searched?
    ensures var s' := AfterAcquire(s, t, victim, throttled);
            && |s'.slots| == |s.slots| && |s'.threads| == |s.threads|
            && AcquiredSlot(s.slots[i], s'.slots[i], HeldBy(s', t, i), s.threads[t].conn, s.threads[t].fp)
  {
    var th := s.threads[t];
    assert ThreadOk(s.slots, th);
    ScanWorks(s.slots, th.conn, th.fp, 0, 0, None);
    var r := Scan(s.slots, th.conn, th.fp, 0, 0, None);
    assert ScanSlot(s.slots[i], r.slots[i], th.conn, th.fp, false);
    if r.dead.Some? {
      if !throttled { ReservedSlot(s, r.slots, t, r.dead.value, th.conn, th.fp, i, s.slots[i]); }
    } else if r.mine < s.maxPer && FirstUnused(r.slots) < |r.slots| {
      var j := FirstUnused(r.slots);
      assert ScanSlot(s.slots[j], r.slots[j], th.conn, th.fp, false) && SlotOk(s.slots[j]);
      ReservedSlot(s, r.slots, t, j, th.conn, th.fp, i, s.slots[i]);
    } else if r.mine < s.maxPer && Evictable(r.slots, victim) {
      assert ScanSlot(s.slots[victim], r.slots[victim], th.conn, th.fp, false);
      ReservedSlot(s, r.slots[victim := EMPTY], t, victim, th.conn, th.fp, i, s.slots[i]);
    }
  }

  lemma AcquireSlot(s: State, t: nat, victim: nat, throttled: bool, i: nat)
    requires Core(s) && Enabled(s, Acquire(t, victim, throttled)) && i < |s.slots|
    ensures var s' := AfterAcquire(s, t, victim, throttled);
            && |s'.slots| == |s.slots| && |s'.threads| == |s.threads| && s.threads[t].fp != 0
            && AcquiredSlot(s.slots[i], s'.slots[i], HeldBy(s', t, i), s.threads[t].conn, s.threads[t].fp)
  {
    assert ThreadOk(s.slots, s.threads[t]);
    if Scan(s.slots, s.threads[t].conn, s.threads[t].fp, 0, 0, None).Found? {
      FoundSlot(s, t, victim, throttled, i);
    } else {
      SearchedSlot(s, t, victim, throttled, i);
    }
  }

  // A holder touches only its own slot.
  lemma HolderLeaves(s: State, e: Event, u: nat, i: nat)
    requires Core(s) && Enabled(s, e) && u != e.t && HeldBy(s, u, i)
    requires e.Load? || e.Opened? || e.Release? || e.TickEnd?
    ensures |After(s, e).slots| == |s.slots| && i < |s.slots| && After(s, e).slots[i] == s.slots[i]
    ensures After(s, e).threads[u] == s.threads[u] && !After(s, e).closed
  {
    assert ThreadOk(s.slots, s.threads[u]);
    OnlyHolder(s, e.t);
  }

  lemma LeaseUntouched(s: State, e: Event, u: nat, i: nat)
    requires Core(s) && Enabled(s, e) && u != e.t && HeldBy(s, u, i)
    ensures LeftAlone(s, After(s, e), i) && !After(s, e).closed
    ensures !e.Invalidate? ==> After(s, e).slots[i] == s.slots[i]
    ensures After(s, e).threads[u] == s.threads[u]
  {
    hide HitsOpener;
    assert ThreadOk(s.slots, s.threads[u]) && SlotOk(s.slots[i]);
    match e
    case Acquire(t, victim, throttled) => AcquireLeaves(s, t, victim, throttled, i);
    case Load(t, loaded) => HolderLeaves(s, e, u, i);
    case Opened(t, ok) => HolderLeaves(s, e, u, i);
    case Release(t, healthy) => HolderLeaves(s, e, u, i);
    case Invalidate(t) => assert After(s, e).slots[i] == Invalidated(s.slots[i], s.threads[t].conn);
    case TickLook(t, due) =>
    case TickEnd(t, alive) => HolderLeaves(s, e, u, i);
    case DestroyLook(t) => assert AnyLeased(s.slots);
    case DestroyTimeout(t) =>
    case Rouse(t) =>
  }

  // ---- nobody sleeps for nothing

  // A step that wakes everybody leaves nobody asleep.
  lemma AllAwake(s: State, e: Event, t: nat)
    requires Enabled(s, e) && (e.Release? || e.TickEnd? || (e.Opened? && !e.ok) || e.Invalidate?)
    ensures t < |After(s, e).threads| ==> !Asleep(After(s, e).threads[t])
  {
  }

  // Any other leaves a leased slot on lease.
  lemma LeaseStays(s: State, e: Event, i: nat)
    requires Core(s) && Enabled(s, e) && !e.Acquire? && !e.DestroyLook?
    requires !e.Release? && !e.TickEnd? && !(e.Opened? && !e.ok) && !e.Invalidate?
    requires i < |s.slots| && s.slots[i].used && s.slots[i].leased
    ensures i < |After(s, e).slots| && After(s, e).slots[i].used && After(s, e).slots[i].leased
    ensures forall t :: 0 <= t < |After(s, e).threads| && Asleep(After(s, e).threads[t]) ==> Asleep(s.threads[t])
  {
  }

  lemma SleeperWaits(s: State, t: nat)
    requires SleepersWait(s) && t < |s.threads| && Asleep(s.threads[t])
    ensures AnyLeased(s.slots)
  {
  }

  lemma AsleepAfter(s: State, e: Event)
    requires Core(s) && Enabled(s, e) && SleepersWait(s) && !e.Acquire? && !e.DestroyLook?
    ensures SleepersWait(After(s, e))
  {
    var s' := After(s, e);
    if t: nat :| t < |s'.threads| && Asleep(s'.threads[t]) {
      if e.Release? || e.TickEnd? || (e.Opened? && !e.ok) || e.Invalidate? {
        AllAwake(s, e, t);
      } else {
        StillWaits(s, e, t);
      }
    }
  }

  lemma StillWaits(s: State, e: Event, t: nat)
    requires Core(s) && Enabled(s, e) && SleepersWait(s) && !e.Acquire? && !e.DestroyLook?
    requires !e.Release? && !e.TickEnd? && !(e.Opened? && !e.ok) && !e.Invalidate?
    requires t < |After(s, e).threads| && Asleep(After(s, e).threads[t])
    ensures AnyLeased(After(s, e).slots)
  {
    if i :| 0 <= i < |s.slots| && s.slots[i].used && s.slots[i].leased {
      LeaseStays(s, e, i);
    } else {
      assert !Asleep(s.threads[t]) by { if Asleep(s.threads[t]) { SleeperWaits(s, t); } }
    }
  }

  lemma AllUsed(slots: seq<Slot>, victim: nat)
    requires |slots| > 0 && FirstUnused(slots) == |slots| && !AnyLeased(slots)
    ensures Evictable(slots, 0)
  {
  }

  // The victim is an idle slot, if every slot is used and there is one.
  ghost predicate FairPick(s: State, e: Event) {
    e.Acquire? && e.t < |s.threads| && s.threads[e.t].Acquiring? ==>
      var r := Scan(s.slots, s.threads[e.t].conn, s.threads[e.t].fp, 0, 0, None);
      (exists v: nat :: Evictable(r.slots, v)) ==> Evictable(r.slots, e.victim)
  }

  // Who goes to sleep in acquire has found every slot of the pool on lease, or too many of its own.
  lemma SleepFinds(s: State, t: nat, victim: nat, throttled: bool)
    requires Core(s) && Enabled(s, Acquire(t, victim, throttled)) && FairPick(s, Acquire(t, victim, throttled))
    requires s.maxPer >= 1 && |s.slots| >= 1 && t < |AfterAcquire(s, t, victim, throttled).threads|
    requires Asleep(AfterAcquire(s, t, victim, throttled).threads[t])
    ensures AnyLeased(AfterAcquire(s, t, victim, throttled).slots)
  {
    var th := s.threads[t];
    assert ThreadOk(s.slots, th);
    ScanWorks(s.slots, th.conn, th.fp, 0, 0, None);
    var r := Scan(s.slots, th.conn, th.fp, 0, 0, None);
    if r.mine < s.maxPer && !AnyLeased(r.slots) {
      AllUsed(r.slots, victim);
    }
  }

  lemma AcquireSleeps(s: State, t: nat, victim: nat, throttled: bool)
    requires Core(s) && Enabled(s, Acquire(t, victim, throttled)) && SleepersWait(s)
    requires FairPick(s, Acquire(t, victim, throttled)) && s.maxPer >= 1 && |s.slots| >= 1
    ensures SleepersWait(AfterAcquire(s, t, victim, throttled))
  {
    var s' := AfterAcquire(s, t, victim, throttled);
    if u: nat :| u < |s'.threads| && Asleep(s'.threads[u]) {
      if u != t {
        SleeperWaits(s, u);
        var i :| 0 <= i < |s.slots| && s.slots[i].used && s.slots[i].leased;
        AcquireLeaves(s, t, victim, throttled, i);
        assert s'.slots[i].used && s'.slots[i].leased;
      } else {
        SleepFinds(s, t, victim, throttled);
      }
    }
  }

  // ---- whole runs

  ghost predicate Inv(s: State) {
    Core(s) && SleepersWait(s) && s.maxPer >= 1 && |s.slots| >= 1
  }

  lemma AcquireSizes(s: State, t: nat, victim: nat, throttled: bool)
    requires Core(s) && Enabled(s, Acquire(t, victim, throttled))
    ensures var s' := AfterAcquire(s, t, victim, throttled);
            s'.maxPer == s.maxPer && |s'.slots| == |s.slots| && |s'.threads| == |s.threads|
  {
    assert ThreadOk(s.slots, s.threads[t]);
    ScanWorks(s.slots, s.threads[t].conn, s.threads[t].fp, 0, 0, None);
  }

  lemma Sizes(s: State, e: Event)
    requires Core(s) && Enabled(s, e)
    ensures After(s, e).maxPer == s.maxPer
    ensures |After(s, e).slots| == |s.slots| && |After(s, e).threads| == |s.threads|
  {
    if e.Acquire? { AcquireSizes(s, e.t, e.victim, e.throttled); }
  }

  lemma Kept(s: State, e: Event)
    requires Inv(s) && Enabled(s, e) && FairPick(s, e)
    ensures Inv(After(s, e)) && After(s, e).maxPer == s.maxPer
    ensures |After(s, e).slots| == |s.slots| && |After(s, e).threads| == |s.threads|
  {
    CoreKept(s, e);
    Sizes(s, e);
    if e.Acquire? {
      AcquireSleeps(s, e.t, e.victim, e.throttled);
    } else if !e.DestroyLook? {
      AsleepAfter(s, e);
    } else {
      DestroySleeps(s, e.t);
    }
  }

  lemma DestroySleeps(s: State, t: nat)
    requires Enabled(s, DestroyLook(t)) && SleepersWait(s)
    ensures SleepersWait(AfterDestroyLook(s, t))
  {
    forall u: nat
      ensures u < |s.threads| && u != t && Asleep(AfterDestroyLook(s, t).threads[u]) ==> AnyLeased(s.slots)
    {
      assert u < |s.threads| && Asleep(s.threads[u]) ==> AnyLeased(s.slots);
    }
  }

  // An empty pool, and callers about to begin.
  ghost predicate Initial(s: State) {
    && s.maxPer >= 1 && |s.slots| >= 1 && (forall i :: 0 <= i < |s.slots| ==> s.slots[i] == EMPTY)
    && (forall t :: 0 <= t < |s.threads| ==>
          var th := s.threads[t];
          (th.Acquiring? && th.fp != 0 && !th.asleep) || th.Invalidating? || th == Ticking(0) ||
              th == Destroying(false))
    && !s.closed && !s.rewritten && !s.pinged
  }

  lemma InitialInv(s: State)
    requires Initial(s)
    ensures Inv(s)
  {
    forall t: nat, i: nat ensures !HeldBy(s, t, i) { }
    forall t {:trigger s.threads[t]} | 0 <= t < |s.threads| ensures ThreadOk(s.slots, s.threads[t]) { }
  }

  ghost predicate Run(s: State, es: seq<Event>, s': State)
    decreases |es|
  {
    if es == [] then s' == s
    else Enabled(s, es[0]) && FairPick(s, es[0]) && Run(After(s, es[0]), es[1..], s')
  }

  lemma {:induction false} RunKept(s: State, es: seq<Event>, s': State)
    requires Inv(s) && Run(s, es, s')
    ensures Inv(s') && |s'.slots| == |s.slots| && |s'.threads| == |s.threads| && s'.maxPer == s.maxPer
    decreases |es|
  {
    if es != [] {
      Kept(s, es[0]);
      RunKept(After(s, es[0]), es[1..], s');
    }
  }

  // In every reachable state: a slot on lease has exactly one holder, and whoever holds a lease has in its
  // slot the session it was given, opened for the connection and the configuration it asked for.
  lemma Safety(s: State, es: seq<Event>, s': State)
    requires Initial(s) && Run(s, es, s')
    ensures forall i: nat :: i < |s'.slots| && s'.slots[i].leased ==> exists t: nat :: HeldBy(s', t, i)
    ensures forall t: nat, u: nat, i: nat :: HeldBy(s', t, i) && HeldBy(s', u, i) ==> t == u
    ensures forall t :: 0 <= t < |s'.threads| && s'.threads[t].Holding? ==>
              var th := s'.threads[t];
              && th.slot < |s'.slots| && s'.slots[th.slot].inst == Some(th.sess)
              && th.sess.conn == th.conn && th.sess.fp == th.fp
  {
    InitialInv(s);
    RunKept(s, es, s');
    forall t | 0 <= t < |s'.threads| && s'.threads[t].Holding?
      ensures var th := s'.threads[t];
              && th.slot < |s'.slots| && s'.slots[th.slot].inst == Some(th.sess)
              && th.sess.conn == th.conn && th.sess.fp == th.fp
    {
      assert ThreadOk(s'.slots, s'.threads[t]);
    }
  }

  // The pool is taken down only when nothing is on lease.
  lemma ClosedUnleased(s: State, e: Event)
    requires Inv(s) && Enabled(s, e) && After(s, e).closed
    ensures forall t: nat, i: nat :: !HeldBy(s, t, i)
  {
    forall t: nat, i: nat ensures !HeldBy(s, t, i) {
      if HeldBy(s, t, i) {
        assert ThreadOk(s.slots, s.threads[t]) && SlotOk(s.slots[i]);
        assert AnyLeased(s.slots);
      }
    }
  }
}
