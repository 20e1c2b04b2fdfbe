// The thread pool as a step system: one step for each stretch of code under the mutex, and sets of sleepers
// for the two condition variables.

module ThreadPool {
  import opened Shared

  type Task = nat

  // Ready is about to take the mutex; Running has left it to run a task.
  datatype Worker = Ready | Asleep | Running(task: Task) | Exited

  // A call in progress: not yet past its wait, or asleep on cond_idle; or returned.
  datatype Client =
    | Submit(task: Task, asleep: bool)
    | Wait(asleep: bool)
    | Destroy
    | Join
    | Returned

  // submitted and started list tasks in the order they entered and left the queue; finished counts those
  // done; late is set when a task enters the queue after the last worker has gone; due is the number of
  // tasks submitted when the pool was told to stop.
  datatype State = State(
    workers: seq<Worker>, clients: seq<Client>, queue: seq<Task>, active: int, shutdown: bool, queueMax: nat,
    submitted: seq<Task>, started: seq<Task>, finished: multiset<Task>, late: bool, due: nat)

  datatype Event =
    | Look(w: nat, woken: Option<nat>)       // a worker at the top of its loop; woken is a client
    | Finish(w: nat)                         // a worker back from its task
    | Enter(c: nat, woken: Option<nat>)      // a client under the mutex; woken is a worker
    | RouseWorker(w: nat)                    // waking up for no reason
    | RouseClient(c: nat)

  predicate SleepsW(s: State, w: nat) {
    w < |s.workers| && s.workers[w].Asleep?
  }

  predicate SleepsC(s: State, c: nat) {
    c < |s.clients| && ((s.clients[c].Submit? && s.clients[c].asleep) || (s.clients[c].Wait? && s.clients[c].asleep))
  }

  // A signal wakes a sleeper if there is one.
  ghost predicate PicksWorker(s: State, p: Option<nat>) {
    if p.Some? then SleepsW(s, p.value) else forall w: nat :: !SleepsW(s, w)
  }

  ghost predicate PicksClient(s: State, p: Option<nat>) {
    if p.Some? then SleepsC(s, p.value) else forall c: nat :: !SleepsC(s, c)
  }

  predicate AllExited(ws: seq<Worker>) {
    forall w :: 0 <= w < |ws| ==> ws[w].Exited?
  }

  ghost predicate Enabled(s: State, e: Event) {
    match e
    case Look(w, p) =>
      w < |s.workers| && s.workers[w].Ready? && (if s.queue != [] then PicksClient(s, p) else p.None?)
    case Finish(w) => w < |s.workers| && s.workers[w].Running?
    case Enter(c, p) =>
      && c < |s.clients| && !SleepsC(s, c) && !s.clients[c].Returned?
      && (s.clients[c].Join? ==> AllExited(s.workers))
      && (if s.clients[c].Submit? && !Blocked(s) then PicksWorker(s, p) else p.None?)
    case RouseWorker(w) => SleepsW(s, w)
    case RouseClient(c) => SleepsC(s, c)
  }

  // tp_submit waits while this holds.
  predicate Blocked(s: State) {
    |s.queue| >= s.queueMax && !s.shutdown
  }

  function Wake(c: Client): Client {
    match c
    case Submit(t, _) => Submit(t, false)
    case Wait(_) => Wait(false)
    case _ => c
  }

  function Sleep(c: Client): Client {
    match c
    case Submit(t, _) => Submit(t, true)
    case Wait(_) => Wait(true)
    case _ => c
  }

  function WakeWorker(w: Worker): Worker {
    if w.Asleep? then Ready else w
  }

  function WakeOneClient(cs: seq<Client>, p: Option<nat>): (r: seq<Client>)
    ensures |r| == |cs|
  {
    if p.Some? && p.value < |cs| then cs[p.value := Wake(cs[p.value])] else cs
  }

  function WakeOneWorker(ws: seq<Worker>, p: Option<nat>): (r: seq<Worker>)
    ensures |r| == |ws|
  {
    if p.Some? && p.value < |ws| then ws[p.value := WakeWorker(ws[p.value])] else ws
  }

  function WakeClients(cs: seq<Client>): (r: seq<Client>)
    ensures |r| == |cs| && forall i :: 0 <= i < |cs| ==> r[i] == Wake(cs[i])
  {
    seq(|cs|, i requires 0 <= i < |cs| => Wake(cs[i]))
  }

  function WakeWorkers(ws: seq<Worker>): (r: seq<Worker>)
    ensures |r| == |ws| && forall i :: 0 <= i < |ws| ==> r[i] == WakeWorker(ws[i])
  {
    seq(|ws|, i requires 0 <= i < |ws| => WakeWorker(ws[i]))
  }

  function AfterLook(s: State, w: nat, p: Option<nat>): State
    requires w < |s.workers|
  {
    if s.queue != [] then
      s.(workers := s.workers[w := Running(s.queue[0])], queue := s.queue[1..], active := s.active + 1,
         started := s.started + [s.queue[0]], clients := WakeOneClient(s.clients, p))
    else if s.shutdown then s.(workers := s.workers[w := Exited])
    else s.(workers := s.workers[w := Asleep])
  }

  function AfterFinish(s: State, w: nat): State
    requires w < |s.workers| && s.workers[w].Running?
  {
    s.(workers := s.workers[w := Ready], active := s.active - 1,
       finished := s.finished + multiset{s.workers[w].task},
       clients := if s.active - 1 == 0 && s.queue == [] then WakeClients(s.clients) else s.clients)
  }

  function AfterEnter(s: State, c: nat, p: Option<nat>): State
    requires c < |s.clients|
  {
    match s.clients[c]
    case Submit(t, _) =>
      if Blocked(s) then s.(clients := s.clients[c := Sleep(s.clients[c])])
      else
        s.(clients := s.clients[c := Returned], queue := s.queue + [t], submitted := s.submitted + [t],
           workers := WakeOneWorker(s.workers, p), late := s.late || AllExited(s.workers))
    case Wait(_) =>
      if s.active != 0 || s.queue != [] then s.(clients := s.clients[c := Sleep(s.clients[c])])
      else s.(clients := s.clients[c := Returned])
    case Destroy =>
      s.(clients := s.clients[c := Join], shutdown := true, workers := WakeWorkers(s.workers),
         due := if s.shutdown then s.due else |s.submitted|)
    case _ => s.(clients := s.clients[c := Returned])
  }

  ghost function After(s: State, e: Event): State
    requires Enabled(s, e)
  {
    match e
    case Look(w, p) => AfterLook(s, w, p)
    case Finish(w) => AfterFinish(s, w)
    case Enter(c, p) => AfterEnter(s, c, p)
    case RouseWorker(w) => s.(workers := s.workers[w := Ready])
    case RouseClient(c) => s.(clients := s.clients[c := Wake(s.clients[c])])
  }

  // Who goes to sleep, and when: a submitter in front of a full queue until the shutdown, a waiter while a task is
  // queued or active, a worker that finds nothing to do; and a worker leaves when there is nothing left after the
  // shutdown.
  lemma WhoSleeps(s: State, e: Event)
    requires Enabled(s, e)
    ensures e.Enter? && s.clients[e.c].Submit? ==>
              (SleepsC(After(s, e), e.c) <==> |s.queue| >= s.queueMax && !s.shutdown)
    ensures e.Enter? && s.clients[e.c].Submit? && !SleepsC(After(s, e), e.c) ==>
              After(s, e).queue == s.queue + [s.clients[e.c].task] && After(s, e).clients[e.c].Returned?
    ensures e.Enter? && s.clients[e.c].Wait? ==> (SleepsC(After(s, e), e.c) <==> s.active != 0 || s.queue != [])
    ensures e.Look? ==> (SleepsW(After(s, e), e.w) <==> s.queue == [] && !s.shutdown)
    ensures e.Look? ==> (After(s, e).workers[e.w].Exited? <==> s.queue == [] && s.shutdown)
    ensures e.Look? && s.queue != [] ==> After(s, e).workers[e.w] == Running(s.queue[0])
  {
  }

  // ---- counts

  // How many of the workers run task t, and how many run any.
  function RunningOf(ws: seq<Worker>, t: Task): nat {
    if ws == [] then 0 else (if ws[0] == Running(t) then 1 else 0) + RunningOf(ws[1..], t)
  }

  function RunningCount(ws: seq<Worker>): nat {
    if ws == [] then 0 else (if ws[0].Running? then 1 else 0) + RunningCount(ws[1..])
  }

  // How many calls have yet to put task t in the queue.
  function PendingOf(cs: seq<Client>, t: Task): nat {
    if cs == [] then 0 else (if cs[0].Submit? && cs[0].task == t then 1 else 0) + PendingOf(cs[1..], t)
  }

  function Occurs(q: seq<Task>, t: Task): nat {
    if q == [] then 0 else (if q[0] == t then 1 else 0) + Occurs(q[1..], t)
  }

  lemma {:induction false} OccursApp(a: seq<Task>, b: seq<Task>, t: Task)
    ensures Occurs(a + b, t) == Occurs(a, t) + Occurs(b, t)
  {
    if a == [] {
      assert a + b == b;
    } else {
      assert (a + b)[1..] == a[1..] + b;
      OccursApp(a[1..], b, t);
    }
  }

  lemma OccursMore(a: seq<Task>, x: Task, t: Task)
    ensures Occurs(a + [x], t) == Occurs(a, t) + (if x == t then 1 else 0)
  {
    OccursApp(a, [x], t);
    assert [x][1..] == [];
  }

  lemma {:induction false} RunningSet(ws: seq<Worker>, i: nat, w: Worker, t: Task)
    requires i < |ws|
    ensures RunningOf(ws[i := w], t) + (if ws[i] == Running(t) then 1 else 0) ==
            RunningOf(ws, t) + (if w == Running(t) then 1 else 0)
    ensures RunningCount(ws[i := w]) + (if ws[i].Running? then 1 else 0) ==
            RunningCount(ws) + (if w.Running? then 1 else 0)
  {
    if i == 0 {
      assert ws[0 := w][1..] == ws[1..];
    } else {
      assert ws[i := w][1..] == ws[1..][i - 1 := w];
      RunningSet(ws[1..], i - 1, w, t);
    }
  }

  lemma {:induction false} PendingSet(cs: seq<Client>, i: nat, c: Client, t: Task)
    requires i < |cs|
    ensures PendingOf(cs[i := c], t) + (if cs[i].Submit? && cs[i].task == t then 1 else 0) ==
            PendingOf(cs, t) + (if c.Submit? && c.task == t then 1 else 0)
  {
    if i == 0 {
      assert cs[0 := c][1..] == cs[1..];
    } else {
      assert cs[i := c][1..] == cs[1..][i - 1 := c];
      PendingSet(cs[1..], i - 1, c, t);
    }
  }

  lemma {:induction false} RunningWoken(ws: seq<Worker>, t: Task)
    ensures RunningOf(WakeWorkers(ws), t) == RunningOf(ws, t)
    ensures RunningCount(WakeWorkers(ws)) == RunningCount(ws)
  {
    if ws != [] {
      assert WakeWorkers(ws)[1..] == WakeWorkers(ws[1..]);
      RunningWoken(ws[1..], t);
    }
  }

  lemma {:induction false} PendingWoken(cs: seq<Client>, t: Task)
    ensures PendingOf(WakeClients(cs), t) == PendingOf(cs, t)
  {
    if cs != [] {
      assert WakeClients(cs)[1..] == WakeClients(cs[1..]);
      PendingWoken(cs[1..], t);
    }
  }

  lemma {:induction false} NoneRunning(ws: seq<Worker>, t: Task)
    ensures RunningCount(ws) == 0 <==> forall i :: 0 <= i < |ws| ==> !ws[i].Running?
    ensures RunningCount(ws) == 0 ==> RunningOf(ws, t) == 0
  {
    if ws != [] {
      NoneRunning(ws[1..], t);
      if RunningCount(ws) == 0 {
        forall i | 0 <= i < |ws| ensures !ws[i].Running? { if i > 0 { assert ws[i] == ws[1..][i - 1]; } }
      } else if !ws[0].Running? {
        var i :| 0 <= i < |ws[1..]| && ws[1..][i].Running?;
        assert ws[i + 1].Running?;
      }
    }
  }

  lemma {:induction false} NonePending(cs: seq<Client>, t: Task)
    requires forall i :: 0 <= i < |cs| ==> !cs[i].Submit?
    ensures PendingOf(cs, t) == 0
  {
    if cs != [] { NonePending(cs[1..], t); }
  }

  // ---- the invariant

  // Tasks leave the queue in the order they entered it.
  ghost predicate InOrder(s: State) {
    s.submitted == s.started + s.queue && s.active == RunningCount(s.workers)
  }

  // Each task is waiting for the queue, in it, running or finished, as often as it was handed in.
  ghost predicate Conserved(s: State, all: multiset<Task>, t: Task) {
    && Occurs(s.started, t) == s.finished[t] + RunningOf(s.workers, t)
    && all[t] == Occurs(s.submitted, t) + PendingOf(s.clients, t)
  }

  ghost predicate Accounts(s: State, all: multiset<Task>) {
    InOrder(s) && forall t: Task {:trigger Conserved(s, all, t)} :: Conserved(s, all, t)
  }

  predicate Up(s: State, w: nat) {
    w < |s.workers| && (s.workers[w].Ready? || s.workers[w].Running?)
  }

  // No wakeup is lost: with work queued some worker is up, and whoever sleeps on cond_idle has work to wait for.
  ghost predicate NoneForgotten(s: State) {
    && (s.queue != [] && !AllExited(s.workers) ==> exists w: nat :: Up(s, w))
    && ((exists c: nat :: SleepsC(s, c)) ==> s.queue != [] || s.active != 0)
    && (forall w: nat :: SleepsW(s, w) ==> !s.shutdown)
  }

  // Workers leave only when told to, and not before the tasks submitted until then have been started.
  ghost predicate Drained(s: State) {
    && (forall w :: 0 <= w < |s.workers| && s.workers[w].Exited? ==> s.shutdown && s.due <= |s.started|)
    && (s.shutdown ==> s.due <= |s.submitted|)
    && (AllExited(s.workers) && !s.late ==> s.queue == [])
    && (forall c :: 0 <= c < |s.clients| && s.clients[c].Join? ==> s.shutdown)
  }

  ghost predicate Inv(s: State, all: multiset<Task>) {
    && |s.workers| >= 1 && s.queueMax >= 1
    && Accounts(s, all) && NoneForgotten(s) && Drained(s)
    && (!s.shutdown ==> |s.queue| <= s.queueMax)
  }

  // ---- every step keeps it

  lemma InOrderKept(s: State, e: Event)
    requires InOrder(s) && Enabled(s, e)
    ensures InOrder(After(s, e))
  {
    hide AllExited;
    match e
    case Look(w, p) =>
      RunningSet(s.workers, w, After(s, e).workers[w], 0);
      if s.queue != [] {
        assert s.queue == [s.queue[0]] + s.queue[1..];
        assert s.started + s.queue == s.started + [s.queue[0]] + s.queue[1..];
      }
    case Finish(w) => RunningSet(s.workers, w, Ready, 0);
    case Enter(c, p) =>
      RunningWoken(s.workers, 0);
      if p.Some? && p.value < |s.workers| { RunningSet(s.workers, p.value, WakeWorker(s.workers[p.value]), 0); }
      if s.clients[c].Submit? {
        assert s.started + s.queue + [s.clients[c].task] == s.started + (s.queue + [s.clients[c].task]);
      }
    case RouseWorker(w) => RunningSet(s.workers, w, Ready, 0);
    case RouseClient(c) =>
  }

  lemma ConservedLook(s: State, w: nat, p: Option<nat>, all: multiset<Task>, t: Task)
    requires Conserved(s, all, t) && Enabled(s, Look(w, p))
    ensures Conserved(AfterLook(s, w, p), all, t)
  {
    RunningSet(s.workers, w, AfterLook(s, w, p).workers[w], t);
    if s.queue != [] {
      OccursMore(s.started, s.queue[0], t);
      if p.Some? { PendingSet(s.clients, p.value, Wake(s.clients[p.value]), t); }
    }
  }

  lemma ConservedFinish(s: State, w: nat, all: multiset<Task>, t: Task)
    requires Conserved(s, all, t) && Enabled(s, Finish(w))
    ensures Conserved(AfterFinish(s, w), all, t)
  {
    RunningSet(s.workers, w, Ready, t);
    PendingWoken(s.clients, t);
  }

  lemma ConservedSubmit(s: State, c: nat, p: Option<nat>, all: multiset<Task>, t: Task)
    requires Conserved(s, all, t) && Enabled(s, Enter(c, p)) && s.clients[c].Submit?
    ensures Conserved(AfterEnter(s, c, p), all, t)
  {
    PendingSet(s.clients, c, AfterEnter(s, c, p).clients[c], t);
    OccursMore(s.submitted, s.clients[c].task, t);
    if p.Some? { RunningSet(s.workers, p.value, WakeWorker(s.workers[p.value]), t); }
  }

  lemma EnterFields(s: State, c: nat, p: Option<nat>)
    requires Enabled(s, Enter(c, p)) && !s.clients[c].Submit?
    ensures var s' := AfterEnter(s, c, p);
            && s'.started == s.started && s'.finished == s.finished && s'.submitted == s.submitted
            && !s'.clients[c].Submit? && s'.clients == s.clients[c := s'.clients[c]]
            && (s'.workers == s.workers || s'.workers == WakeWorkers(s.workers))
  {
  }

  lemma ConservedSame(s: State, s': State, c: nat, all: multiset<Task>, t: Task)
    requires Conserved(s, all, t) && c < |s.clients| && !s.clients[c].Submit? && |s'.clients| == |s.clients|
    requires s'.started == s.started && s'.finished == s.finished && s'.submitted == s.submitted
    requires !s'.clients[c].Submit? && s'.clients == s.clients[c := s'.clients[c]]
    requires s'.workers == s.workers || s'.workers == WakeWorkers(s.workers)
    ensures Conserved(s', all, t)
  {
    PendingSet(s.clients, c, s'.clients[c], t);
    RunningWoken(s.workers, t);
  }

  lemma ConservedEnter(s: State, c: nat, p: Option<nat>, all: multiset<Task>, t: Task)
    requires Conserved(s, all, t) && Enabled(s, Enter(c, p)) && !s.clients[c].Submit?
    ensures Conserved(AfterEnter(s, c, p), all, t)
  {
    EnterFields(s, c, p);
    ConservedSame(s, AfterEnter(s, c, p), c, all, t);
  }

  lemma ConservedKept(s: State, e: Event, all: multiset<Task>, t: Task)
    requires Conserved(s, all, t) && Enabled(s, e)
    ensures Conserved(After(s, e), all, t)
  {
    match e
    case Look(w, p) => ConservedLook(s, w, p, all, t);
    case Finish(w) => ConservedFinish(s, w, all, t);
    case Enter(c, p) =>
      if s.clients[c].Submit? { ConservedSubmit(s, c, p, all, t); } else { ConservedEnter(s, c, p, all, t); }
    case RouseWorker(w) => RunningSet(s.workers, w, Ready, t);
    case RouseClient(c) => PendingSet(s.clients, c, Wake(s.clients[c]), t);
  }

  lemma AccountsKept(s: State, e: Event, all: multiset<Task>)
    requires Accounts(s, all) && Enabled(s, e)
    ensures Accounts(After(s, e), all)
  {
    InOrderKept(s, e);
    forall t: Task ensures Conserved(After(s, e), all, t) {
      assert Conserved(s, all, t);
      ConservedKept(s, e, all, t);
    }
  }

  lemma ForgottenLook(s: State, w: nat, p: Option<nat>)
    requires InOrder(s) && NoneForgotten(s) && Enabled(s, Look(w, p))
    ensures NoneForgotten(AfterLook(s, w, p))
  {
    var s' := AfterLook(s, w, p);
    if s.queue != [] {
      assert Up(s', w);
    }
    forall v: nat | SleepsW(s', v) ensures !s'.shutdown { if v != w { assert SleepsW(s, v); } }
    forall c: nat | SleepsC(s', c) ensures SleepsC(s, c) { }
  }

  lemma ForgottenFinish(s: State, w: nat)
    requires InOrder(s) && NoneForgotten(s) && Enabled(s, Finish(w))
    ensures NoneForgotten(AfterFinish(s, w))
  {
    var s' := AfterFinish(s, w);
    assert Up(s', w);
    forall v: nat | SleepsW(s', v) ensures !s'.shutdown { assert SleepsW(s, v); }
    if s'.active == 0 && s'.queue == [] {
      forall c: nat ensures !SleepsC(s', c) { if c < |s.clients| { assert s'.clients[c] == Wake(s.clients[c]); } }
    }
  }

  lemma ForgottenSubmit(s: State, c: nat, p: Option<nat>)
    requires InOrder(s) && NoneForgotten(s) && Enabled(s, Enter(c, p)) && s.clients[c].Submit? && !Blocked(s)
    ensures NoneForgotten(AfterEnter(s, c, p))
  {
    var s' := AfterEnter(s, c, p);
    if !AllExited(s'.workers) {
      var v: nat :| v < |s'.workers| && !s'.workers[v].Exited?;
      if p.Some? {
        assert Up(s', p.value);
      } else {
        assert !SleepsW(s, v);
        assert Up(s', v);
      }
    }
    forall v: nat | SleepsW(s', v) ensures !s'.shutdown { assert SleepsW(s, v); }
  }

  lemma ForgottenEnter(s: State, c: nat, p: Option<nat>)
    requires InOrder(s) && NoneForgotten(s) && s.queueMax >= 1 && Enabled(s, Enter(c, p))
    ensures NoneForgotten(AfterEnter(s, c, p))
  {
    var s' := AfterEnter(s, c, p);
    if s.clients[c].Submit? && !Blocked(s) {
      ForgottenSubmit(s, c, p);
    } else {
      forall v: nat ensures Up(s, v) ==> Up(s', v) { }
      forall v: nat ensures SleepsW(s', v) ==> SleepsW(s, v) && !s'.shutdown {
        assert SleepsW(s, v) ==> !s.shutdown;
        if v < |s.workers| && s.clients[c].Destroy? { assert s'.workers[v] == WakeWorker(s.workers[v]); }
      }
      forall d: nat | SleepsC(s', d) ensures SleepsC(s, d) || s.active != 0 || s.queue != [] { }
    }
  }

  lemma ForgottenKept(s: State, e: Event, all: multiset<Task>)
    requires Inv(s, all) && Enabled(s, e)
    ensures NoneForgotten(After(s, e))
  {
    match e
    case Look(w, p) => ForgottenLook(s, w, p);
    case Finish(w) => ForgottenFinish(s, w);
    case Enter(c, p) => ForgottenEnter(s, c, p);
    case RouseWorker(w) =>
      var s' := After(s, e);
      assert Up(s', w);
      forall v: nat ensures SleepsW(s', v) ==> SleepsW(s, v) { }
      forall d: nat ensures SleepsC(s', d) ==> SleepsC(s, d) { }
    case RouseClient(c) =>
      var s' := After(s, e);
      forall d: nat ensures SleepsC(s', d) ==> SleepsC(s, d) { }
      forall v: nat ensures (Up(s, v) ==> Up(s', v)) && (SleepsW(s', v) ==> SleepsW(s, v)) { }
  }

  // The last worker to leave leaves an empty queue.
  lemma LastLeaves(s: State, e: Event)
    requires Enabled(s, e) && AllExited(After(s, e).workers) && !AllExited(s.workers)
    ensures e.Look? && s.queue == [] && After(s, e).queue == []
  {
    var w: nat :| w < |s.workers| && !s.workers[w].Exited?;
    assert After(s, e).workers[w].Exited?;
  }

  lemma DrainedKept(s: State, e: Event, all: multiset<Task>)
    requires Inv(s, all) && Enabled(s, e)
    ensures Drained(After(s, e))
  {
    if AllExited(After(s, e).workers) && !AllExited(s.workers) { LastLeaves(s, e); }
  }

  lemma Kept(s: State, e: Event, all: multiset<Task>)
    requires Inv(s, all) && Enabled(s, e)
    ensures Inv(After(s, e), all)
  {
    AccountsKept(s, e, all);
    ForgottenKept(s, e, all);
    DrainedKept(s, e, all);
  }

  // ---- whole runs

  // Workers about to look for work, calls about to be made, nothing queued.
  ghost predicate Initial(s: State) {
    && |s.workers| >= 1 && s.queueMax >= 1
    && (forall w :: 0 <= w < |s.workers| ==> s.workers[w] == Ready)
    && (forall c :: 0 <= c < |s.clients| ==> s.clients[c].Destroy? || (s.clients[c].Submit? && !s.clients[c].asleep)
                                             || (s.clients[c].Wait? && !s.clients[c].asleep))
    && s.queue == [] && s.active == 0 && !s.shutdown && !s.late
    && s.submitted == [] && s.started == [] && s.finished == multiset{}
  }

  // The tasks the calls of a state are to hand in.
  ghost predicate Asks(s: State, all: multiset<Task>) {
    forall t: Task :: all[t] == PendingOf(s.clients, t)
  }

  lemma InitialInv(s: State, all: multiset<Task>)
    requires Initial(s) && Asks(s, all)
    ensures Inv(s, all)
  {
    NoneRunning(s.workers, 0);
    forall t: Task ensures Conserved(s, all, t) { NoneRunning(s.workers, t); }
    assert !s.workers[0].Exited?;
    forall c: nat ensures !SleepsC(s, c) { }
    forall w: nat ensures !SleepsW(s, w) { }
  }

  ghost predicate Run(s: State, es: seq<Event>, s': State)
    decreases |es|
  {
    if es == [] then s' == s else Enabled(s, es[0]) && Run(After(s, es[0]), es[1..], s')
  }

  lemma {:induction false} RunKept(s: State, es: seq<Event>, s': State, all: multiset<Task>)
    requires Inv(s, all) && Run(s, es, s')
    ensures Inv(s', all)
    decreases |es|
  {
    if es != [] {
      Kept(s, es[0], all);
      RunKept(After(s, es[0]), es[1..], s', all);
    }
  }

  // In every reachable state: tasks have started in the order they were submitted, none is lost or run
  // twice, the queue keeps its bound until the pool is told to stop, and no worker has left tasks behind
  // that were submitted before that.
  lemma Safety(s: State, es: seq<Event>, s': State, all: multiset<Task>)
    requires Initial(s) && Asks(s, all) && Run(s, es, s')
    ensures s'.started <= s'.submitted && s'.submitted == s'.started + s'.queue
    ensures forall t: Task ::
              all[t] == PendingOf(s'.clients, t) + Occurs(s'.queue, t) + RunningOf(s'.workers, t) + s'.finished[t]
    ensures !s'.shutdown ==> |s'.queue| <= s'.queueMax
    ensures forall w :: 0 <= w < |s'.workers| && s'.workers[w].Exited? ==> s'.shutdown && s'.due <= |s'.started|
  {
    InitialInv(s, all);
    RunKept(s, es, s', all);
    forall t: Task
      ensures all[t] == PendingOf(s'.clients, t) + Occurs(s'.queue, t) + RunningOf(s'.workers, t) + s'.finished[t]
    {
      assert Conserved(s', all, t);
      OccursApp(s'.started, s'.queue, t);
    }
  }

  // A wait returns only when every task submitted so far is done.
  lemma WaitQuiescent(s: State, c: nat, all: multiset<Task>, t: Task)
    requires Inv(s, all) && Enabled(s, Enter(c, None)) && s.clients[c].Wait?
    requires After(s, Enter(c, None)).clients[c].Returned?
    ensures s.finished[t] == Occurs(s.submitted, t) && s.queue == []
  {
    assert Conserved(s, all, t);
    NoneRunning(s.workers, t);
    assert s.submitted == s.started;
  }

  // ---- nothing gets stuck

  predicate Spurious(e: Event) {
    e.RouseWorker? || e.RouseClient?
  }

  ghost predicate Resting(s: State) {
    forall e: Event {:trigger Enabled(s, e)} :: Enabled(s, e) ==> Spurious(e)
  }

  // A worker that is up can always move.
  lemma WorkerMoves(s: State, w: nat) returns (e: Event)
    requires w < |s.workers| && (s.workers[w].Ready? || s.workers[w].Running?)
    ensures Enabled(s, e) && !Spurious(e)
  {
    if s.workers[w].Running? {
      e := Finish(w);
    } else if c: nat :| s.queue != [] && SleepsC(s, c) {
      e := Look(w, Some(c));
    } else {
      e := Look(w, None);
    }
  }

  // So can a call that is not asleep, but for a join before the workers have left.
  lemma ClientMoves(s: State, c: nat) returns (e: Event)
    requires c < |s.clients| && !SleepsC(s, c) && !s.clients[c].Returned?
    requires s.clients[c].Join? ==> AllExited(s.workers)
    ensures Enabled(s, e) && !Spurious(e)
  {
    if w: nat :| s.clients[c].Submit? && !Blocked(s) && SleepsW(s, w) {
      e := Enter(c, Some(w));
    } else {
      e := Enter(c, None);
    }
  }

  lemma RestingWorkers(s: State, w: nat)
    requires Resting(s) && w < |s.workers|
    ensures s.workers[w].Asleep? || s.workers[w].Exited?
  {
    if s.workers[w].Ready? || s.workers[w].Running? {
      var e := WorkerMoves(s, w);
    }
  }

  lemma RestingClients(s: State, c: nat)
    requires Resting(s) && c < |s.clients|
    ensures SleepsC(s, c) || s.clients[c].Returned? || (s.clients[c].Join? && !AllExited(s.workers))
  {
    if !SleepsC(s, c) && !s.clients[c].Returned? && (s.clients[c].Join? ==> AllExited(s.workers)) {
      var e := ClientMoves(s, c);
    }
  }

  // When nothing can move, and no task was handed in after the last worker left, every call has returned and
  // every task has been run exactly as often as it was handed in.
  lemma RestingDone(s: State, all: multiset<Task>)
    requires Inv(s, all) && Resting(s) && !s.late
    ensures s.queue == [] && s.active == 0
    ensures forall c :: 0 <= c < |s.clients| ==> s.clients[c].Returned?
    ensures forall t: Task :: s.finished[t] == all[t] == Occurs(s.submitted, t)
  {
    forall w | 0 <= w < |s.workers| ensures s.workers[w].Asleep? || s.workers[w].Exited? { RestingWorkers(s, w); }
    NoneRunning(s.workers, 0);
    assert s.active == 0;
    forall w: nat ensures !Up(s, w) { }
    assert s.queue == [];
    forall c | 0 <= c < |s.clients| ensures s.clients[c].Returned? {
      RestingClients(s, c);
      if s.clients[c].Join? {
        forall w | 0 <= w < |s.workers| ensures s.workers[w].Exited? {
          assert SleepsW(s, w) ==> !s.shutdown;
        }
      }
    }
    forall t: Task ensures s.finished[t] == all[t] == Occurs(s.submitted, t) {
      assert Conserved(s, all, t);
      NonePending(s.clients, t);
      NoneRunning(s.workers, t);
      assert s.started == s.submitted by { assert s.started + [] == s.started; }
    }
  }

  // ---- every run comes to rest

  // Work still to be done, each handing-over counted down; a worker that may yet leave counts once.
  function WorkerWork(w: Worker): nat {
    match w
    case Running(_) => 2
    case Exited => 0
    case _ => 1
  }

  function ClientWork(c: Client): nat {
    match c
    case Submit(_, _) => 4
    case Wait(_) => 1
    case Destroy => 2
    case Join => 1
    case Returned => 0
  }

  function WorkersSum(ws: seq<Worker>): nat {
    if ws == [] then 0 else WorkerWork(ws[0]) + WorkersSum(ws[1..])
  }

  function ClientsSum(cs: seq<Client>): nat {
    if cs == [] then 0 else ClientWork(cs[0]) + ClientsSum(cs[1..])
  }

  function Work(s: State): nat {
    WorkersSum(s.workers) + ClientsSum(s.clients) + 3 * |s.queue|
  }

  // Threads that are up without having work.
  function WorkersUp(ws: seq<Worker>): (n: nat)
    ensures n <= |ws|
  {
    if ws == [] then 0 else (if ws[0].Ready? then 1 else 0) + WorkersUp(ws[1..])
  }

  predicate ClientUp(c: Client) {
    (c.Submit? && !c.asleep) || (c.Wait? && !c.asleep)
  }

  function ClientsUp(cs: seq<Client>): (n: nat)
    ensures n <= |cs|
  {
    if cs == [] then 0 else (if ClientUp(cs[0]) then 1 else 0) + ClientsUp(cs[1..])
  }

  function Threads(s: State): nat {
    |s.workers| + |s.clients|
  }

  // How many steps are left at most.
  function Bound(s: State): nat {
    Work(s) * (Threads(s) + 1) + WorkersUp(s.workers) + ClientsUp(s.clients)
  }

  lemma {:induction false} WorkersSet(ws: seq<Worker>, i: nat, w: Worker)
    requires i < |ws|
    ensures WorkersSum(ws[i := w]) + WorkerWork(ws[i]) == WorkersSum(ws) + WorkerWork(w)
    ensures WorkersUp(ws[i := w]) + (if ws[i].Ready? then 1 else 0) == WorkersUp(ws) + (if w.Ready? then 1 else 0)
  {
    if i == 0 {
      assert ws[0 := w][1..] == ws[1..];
    } else {
      assert ws[i := w][1..] == ws[1..][i - 1 := w];
      WorkersSet(ws[1..], i - 1, w);
    }
  }

  lemma {:induction false} ClientsSet(cs: seq<Client>, i: nat, c: Client)
    requires i < |cs|
    ensures ClientsSum(cs[i := c]) + ClientWork(cs[i]) == ClientsSum(cs) + ClientWork(c)
    ensures ClientsUp(cs[i := c]) + (if ClientUp(cs[i]) then 1 else 0) == ClientsUp(cs) + (if ClientUp(c) then 1 else 0)
  {
    if i == 0 {
      assert cs[0 := c][1..] == cs[1..];
    } else {
      assert cs[i := c][1..] == cs[1..][i - 1 := c];
      ClientsSet(cs[1..], i - 1, c);
    }
  }

  lemma {:induction false} SumsWoken(ws: seq<Worker>, cs: seq<Client>)
    ensures WorkersSum(WakeWorkers(ws)) == WorkersSum(ws)
    ensures ClientsSum(WakeClients(cs)) == ClientsSum(cs)
    decreases |ws| + |cs|
  {
    if ws != [] {
      assert WakeWorkers(ws)[1..] == WakeWorkers(ws[1..]);
      SumsWoken(ws[1..], cs);
    } else if cs != [] {
      assert WakeClients(cs)[1..] == WakeClients(cs[1..]);
      SumsWoken(ws, cs[1..]);
    }
  }

  // s' is nearer to rest: less work, or as much and fewer threads up.
  ghost predicate Nearer(s: State, s': State) {
    && Threads(s') == Threads(s)
    && (Work(s') < Work(s) ||
        (Work(s') == Work(s) &&
         WorkersUp(s'.workers) + ClientsUp(s'.clients) < WorkersUp(s.workers) + ClientsUp(s.clients)))
  }

  lemma LookWorks(s: State, w: nat, p: Option<nat>)
    requires Enabled(s, Look(w, p))
    ensures Nearer(s, AfterLook(s, w, p))
  {
    WorkersSet(s.workers, w, AfterLook(s, w, p).workers[w]);
    if s.queue != [] && p.Some? { ClientsSet(s.clients, p.value, Wake(s.clients[p.value])); }
  }

  lemma FinishWorks(s: State, w: nat)
    requires Enabled(s, Finish(w))
    ensures Nearer(s, AfterFinish(s, w))
  {
    WorkersSet(s.workers, w, Ready);
    SumsWoken([], s.clients);
  }

  lemma SubmitWorks(s: State, c: nat, p: Option<nat>)
    requires Enabled(s, Enter(c, p)) && s.clients[c].Submit?
    ensures Nearer(s, AfterEnter(s, c, p))
  {
    ClientsSet(s.clients, c, AfterEnter(s, c, p).clients[c]);
    if p.Some? { WorkersSet(s.workers, p.value, WakeWorker(s.workers[p.value])); }
  }

  lemma EnterWorks(s: State, c: nat, p: Option<nat>)
    requires Enabled(s, Enter(c, p)) && !s.clients[c].Submit?
    ensures Nearer(s, AfterEnter(s, c, p))
  {
    ClientsSet(s.clients, c, AfterEnter(s, c, p).clients[c]);
    if s.clients[c].Destroy? { DestroyWorks(s, c, p); }
  }

  // Everybody may get up, but the call has done its own work.
  lemma DestroyWorks(s: State, c: nat, p: Option<nat>)
    requires Enabled(s, Enter(c, p)) && s.clients[c].Destroy?
    ensures Threads(AfterEnter(s, c, p)) == Threads(s) && Work(AfterEnter(s, c, p)) < Work(s)
  {
    ClientsSet(s.clients, c, Join);
    SumsWoken(s.workers, []);
  }

  // A step does some of the work, or does none and sends one thread to sleep.
  lemma StepWorks(s: State, e: Event)
    requires Enabled(s, e) && !Spurious(e)
    ensures Nearer(s, After(s, e))
  {
    match e
    case Look(w, p) => LookWorks(s, w, p);
    case Finish(w) => FinishWorks(s, w);
    case Enter(c, p) => if s.clients[c].Submit? { SubmitWorks(s, c, p); } else { EnterWorks(s, c, p); }
  }

  lemma StepBound(s: State, e: Event)
    requires Enabled(s, e) && !Spurious(e)
    ensures Bound(After(s, e)) < Bound(s)
  {
    StepWorks(s, e);
    var s' := After(s, e);
    var n := Threads(s) + 1;
    if Work(s') < Work(s) {
      RoundLess(Work(s'), Work(s), n);
    }
  }

  // Whatever the schedule, a run without spurious wakeups is this short.
  lemma {:induction false} RunBounded(s: State, es: seq<Event>, s': State)
    requires Run(s, es, s') && forall i :: 0 <= i < |es| ==> !Spurious(es[i])
    ensures |es| + Bound(s') <= Bound(s)
    decreases |es|
  {
    if es != [] {
      StepBound(s, es[0]);
      RunBounded(After(s, es[0]), es[1..], s');
    }
  }

  // So every schedule of a finite set of calls ends, and where it ends, unless a task was handed in after
  // the last worker had left, every call has returned and every task has been run.
  lemma AllSchedulesComplete(s: State, es: seq<Event>, s': State, all: multiset<Task>)
    requires Initial(s) && Asks(s, all) && Run(s, es, s') && forall i :: 0 <= i < |es| ==> !Spurious(es[i])
    ensures |es| <= Bound(s)
    ensures Resting(s') && !s'.late ==>
            && (forall c :: 0 <= c < |s'.clients| ==> s'.clients[c].Returned?)
            && (forall t: Task :: s'.finished[t] == all[t])
            && s'.started == s'.submitted
  {
    InitialInv(s, all);
    RunKept(s, es, s', all);
    RunBounded(s, es, s');
    if Resting(s') && !s'.late {
      RestingDone(s', all);
      assert s'.started + [] == s'.started;
    }
  }

  // Without a call to stop the pool nothing is ever late.
  lemma {:induction false} NeverLate(s: State, es: seq<Event>, s': State, all: multiset<Task>)
    requires Inv(s, all) && !s.shutdown && !s.late && Run(s, es, s')
    requires forall c :: 0 <= c < |s.clients| ==> !s.clients[c].Destroy?
    ensures !s'.late && !s'.shutdown
    decreases |es|
  {
    if es != [] {
      assert !s.workers[0].Exited?;
      Kept(s, es[0], all);
      NeverLate(After(s, es[0]), es[1..], s', all);
    }
  }

  // ---- work that comes too late

  // A task that entered the queue after the last worker left is in it still, and there is nobody to take it.
  ghost predicate Stranded(s: State) {
    s.late ==> AllExited(s.workers) && s.queue != []
  }

  // From then on nothing starts.
  lemma StrandedKept(s: State, e: Event)
    requires Stranded(s) && Enabled(s, e)
    ensures Stranded(After(s, e))
    ensures s.late ==> After(s, e).late && After(s, e).started == s.started && s.queue <= After(s, e).queue
  {
  }

  lemma {:induction false} LateForGood(s: State, es: seq<Event>, s': State)
    requires Stranded(s) && Run(s, es, s')
    ensures Stranded(s')
    ensures s.late ==> s'.late && s'.started == s.started && s.queue <= s'.queue
    decreases |es|
  {
    if es != [] {
      StrandedKept(s, es[0]);
      LateForGood(After(s, es[0]), es[1..], s');
    }
  }

  lemma QueuedUnfinished(s: State, all: multiset<Task>)
    requires Inv(s, all) && s.queue != []
    ensures s.finished[s.queue[0]] < all[s.queue[0]]
  {
    var t := s.queue[0];
    assert Conserved(s, all, t);
    OccursApp(s.started, s.queue, t);
  }

  // Where a schedule ends, every task has been run if and only if none entered the queue after the last
  // worker had left.
  lemma AllRunIff(s: State, es: seq<Event>, s': State, all: multiset<Task>)
    requires Initial(s) && Asks(s, all) && Run(s, es, s') && Resting(s')
    ensures !s'.late <==> forall t: Task :: s'.finished[t] == all[t]
  {
    InitialInv(s, all);
    RunKept(s, es, s', all);
    LateForGood(s, es, s');
    if s'.late {
      QueuedUnfinished(s', all);
    } else {
      RestingDone(s', all);
    }
  }

  // It happens: one worker, told to stop, leaves, and only then does work come in.
  lemma LateTaskLost(s: State)
    requires s == State([Ready], [Destroy, Submit(7, false)], [], 0, false, 1, [], [], multiset{}, false, 0)
    ensures exists es: seq<Event>, s': State ::
              Run(s, es, s') && Resting(s') && s'.queue == [7] && s'.clients == [Returned, Returned]
  {
    var e0, e1, e2, e3 := Enter(0, None), Look(0, None), Enter(1, None), Enter(0, None);
    assert forall w: nat :: !SleepsW(s, w);
    var s1 := After(s, e0);
    assert s1.workers == [Ready] && s1.clients == [Join, Submit(7, false)];
    var s2 := After(s1, e1);
    assert s2.workers == [Exited];
    assert forall w: nat :: !SleepsW(s2, w);
    var s3 := After(s2, e2);
    assert s3.workers == [Exited] && s3.clients == [Join, Returned] && s3.queue == [7];
    var s4 := After(s3, e3);
    assert s4.clients == [Returned, Returned];
    var es := [e0, e1, e2, e3];
    assert Run(s4, [], s4) && Run(s3, [e3], s4) by { assert [e3][1..] == []; }
    assert Run(s2, [e2, e3], s4) by { assert [e2, e3][1..] == [e3]; }
    assert Run(s1, [e1, e2, e3], s4) by { assert [e1, e2, e3][1..] == [e2, e3]; }
    assert Run(s, es, s4) by { assert es[1..] == [e1, e2, e3]; }
    forall e: Event | Enabled(s4, e) ensures Spurious(e) { }
  }
}
