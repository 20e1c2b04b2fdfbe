// When records reach the replica in the order of the leader's queue: exactly if the replica never goes back
// to an older connection.

module ReplicationOrder {
  import opened Replication

  function ReadOf(e: Event): seq<nat> {
    if e.Read? then [e.c] else []
  }

  // The connections read from, in order.
  function Reads(es: seq<Event>): seq<nat> {
    if es == [] then [] else ReadOf(es[0]) + Reads(es[1..])
  }

  ghost predicate Forward(cs: seq<nat>) {
    forall k, l :: 0 <= k < l < |cs| ==> cs[k] <= cs[l]
  }

  // Record ids[k] came over connection from[k]: later connections carry later records, earlier ones earlier.
  ghost predicate CameOver(s: State, k: nat, c: nat)
    requires k < |s.ids|
  {
    && c < |s.tags| && s.ids[k] <= s.tags[c]
    && (forall d {:trigger s.tags[d]} :: c < d < |s.tags| ==> s.ids[k] < s.tags[d])
    && (forall d {:trigger s.tags[d]} :: 0 <= d < c ==> s.tags[d] < s.ids[k])
  }

  ghost predicate Sourced(s: State, from: seq<nat>) {
    |from| == |s.ids| && forall k {:trigger from[k]} :: 0 <= k < |from| ==> CameOver(s, k, from[k])
  }

  lemma StartSourced(s: State, from: seq<nat>)
    requires Core(s) && Sourced(s, from) && Enabled(s, Start)
    ensures Sourced(AfterStart(s), from)
  {
    var s' := AfterStart(s);
    var id := s.worker.id;
    forall c | 0 <= c < |s.tags| ensures s.tags[c] < id { assert ConnOk(s, c); }
    forall k {:trigger from[k]} | 0 <= k < |from| ensures CameOver(s', k, from[k]) {
      assert CameOver(s, k, from[k]);
      assert s.ids[k] < s.next && s.ids[k] in s.ids;
    }
  }

  lemma ReadSourced(s: State, c: nat, from: seq<nat>)
    requires Core(s) && Sourced(s, from) && Enabled(s, Read(c))
    ensures Sourced(AfterRead(s, c), from + [c]) && AfterRead(s, c).ids == s.ids + [s.tags[c]]
  {
    var s' := AfterRead(s, c);
    ReadEffect(s, c);
    var all := from + [c];
    forall k {:trigger all[k]} | 0 <= k < |all| ensures CameOver(s', k, all[k]) {
      if k < |from| { assert CameOver(s, k, from[k]); }
    }
  }

  lemma StepSourced(s: State, e: Event, from: seq<nat>)
    requires Core(s) && Sourced(s, from) && Enabled(s, e)
    ensures Sourced(After(s, e), from + ReadOf(e))
    ensures !e.Read? ==> After(s, e).ids == s.ids
  {
    if e.Read? {
      ReadSourced(s, e.c, from);
    } else {
      assert from + [] == from;
      if e.Start? {
        StartSourced(s, from);
      } else {
        OtherSourced(s, e, from);
      }
    }
  }

  lemma OtherSourced(s: State, e: Event, from: seq<nat>)
    requires Sourced(s, from) && Enabled(s, e) && !e.Read? && !e.Start?
    ensures Sourced(After(s, e), from) && After(s, e).ids == s.ids
  {
    var s' := After(s, e);
    assert s'.ids == s.ids && s'.tags == s.tags;
    forall k {:trigger from[k]} | 0 <= k < |from| ensures CameOver(s', k, from[k]) { assert CameOver(s, k, from[k]); }
  }

  // The next record is later than all before it exactly if its connection is no older than theirs.
  lemma LaterIff(s: State, c: nat, from: seq<nat>)
    requires Core(s) && Sourced(s, from) && Enabled(s, Read(c))
    ensures (forall k :: 0 <= k < |s.ids| ==> s.ids[k] < s.tags[c]) <==> (forall k :: 0 <= k < |from| ==> from[k] <= c)
  {
    ReadEffect(s, c);
    forall k | 0 <= k < |from| ensures s.ids[k] < s.tags[c] <==> from[k] <= c {
      assert CameOver(s, k, from[k]) && s.ids[k] in s.ids;
    }
  }

  lemma RisingIff(ids: seq<nat>, id: nat)
    ensures Rising(ids + [id]) <==> Rising(ids) && forall k :: 0 <= k < |ids| ==> ids[k] < id
  {
    var all := ids + [id];
    assert forall k :: 0 <= k < |ids| ==> all[k] == ids[k];
    assert all[|ids|] == id;
  }

  lemma ForwardIff(cs: seq<nat>, c: nat)
    ensures Forward(cs + [c]) <==> Forward(cs) && forall k :: 0 <= k < |cs| ==> cs[k] <= c
  {
    var all := cs + [c];
    assert forall k :: 0 <= k < |cs| ==> all[k] == cs[k];
    assert all[|cs|] == c;
  }

  lemma StepOrder(s: State, e: Event, from: seq<nat>)
    requires Core(s) && Sourced(s, from) && Enabled(s, e) && (Rising(s.ids) <==> Forward(from))
    ensures Rising(After(s, e).ids) <==> Forward(from + ReadOf(e))
  {
    StepSourced(s, e, from);
    if e.Read? {
      ReadSourced(s, e.c, from);
      LaterIff(s, e.c, from);
      RisingIff(s.ids, s.tags[e.c]);
      ForwardIff(from, e.c);
    } else {
      assert from + [] == from;
    }
  }

  // So far the records came in order exactly if the reads went forward.
  ghost predicate Agrees(s: State, from: seq<nat>) {
    Core(s) && Sourced(s, from) && (Rising(s.ids) <==> Forward(from))
  }

  lemma StepAgrees(s: State, e: Event, from: seq<nat>)
    requires Agrees(s, from) && Enabled(s, e)
    ensures Agrees(After(s, e), from + ReadOf(e))
  {
    CoreKept(s, e);
    StepSourced(s, e, from);
    StepOrder(s, e, from);
  }

  lemma ReadsCons(from: seq<nat>, es: seq<Event>)
    ensures es == [] ==> from + Reads(es) == from
    ensures es != [] ==> from + Reads(es) == from + ReadOf(es[0]) + Reads(es[1..])
  {
  }

  lemma {:induction false} RunAgrees(s: State, es: seq<Event>, s': State, from: seq<nat>)
    requires Agrees(s, from) && Run(s, es, s')
    ensures Agrees(s', from + Reads(es))
    decreases |es|
  {
    ReadsCons(from, es);
    if es != [] {
      StepAgrees(s, es[0], from);
      RunAgrees(After(s, es[0]), es[1..], s', from + ReadOf(es[0]));
    }
  }

  lemma AgreesStart(s: State)
    requires Initial(s)
    ensures Agrees(s, [])
  {
    forall c: nat ensures ConnOk(s, c) { }
  }

  // Under every schedule the replica decodes the records in the order of the queue if and only if it never
  // reads from a connection after reading from a later one.
  lemma OrderIff(s: State, es: seq<Event>, s': State)
    requires Initial(s) && Run(s, es, s')
    ensures Rising(s'.ids) <==> Forward(Reads(es))
    ensures |s'.ids| == |s'.log| && forall k :: 0 <= k < |s'.ids| ==>
              s'.ids[k] < |s'.accepted| && s'.log[k] == s'.accepted[s'.ids[k]]
  {
    hide Core, Sourced, Rising, Forward, Run, Initial;
    AgreesStart(s);
    assert [] + Reads(es) == Reads(es);
    RunAgrees(s, es, s', []);
    Delivery(s, es, s');
  }
}
