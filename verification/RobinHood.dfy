// Open addressing with Robin Hood displacement: what the slot array keeps, and why lookups may stop early.

module RobinHood {

  datatype Slot<+V> =
    | Free
    | Used(key: string, val: V, hash: nat, psl: nat)

  type Hash = string -> nat

  function Next(i: nat, cap: nat): (r: nat)
    requires i < cap
    ensures r < cap
  {
    if i + 1 == cap then 0 else i + 1
  }

  function Prev(i: nat, cap: nat): (r: nat)
    requires i < cap
    ensures r < cap
  {
    if i == 0 then cap - 1 else i - 1
  }

  // q places before i, around the circle.
  function Back(i: nat, q: nat, cap: nat): (r: nat)
    requires i < cap && q < cap
    ensures r < cap
  {
    if q <= i then i - q else i + cap - q
  }

  // Steps from slot a forward to slot b, around the circle.
  function Dist(a: nat, b: nat, cap: nat): (r: nat)
    requires a < cap && b < cap
    ensures r < cap
  {
    if a <= b then b - a else b + cap - a
  }

  function Home(hash: nat, cap: nat): (r: nat)
    requires cap > 0
    ensures r < cap
  {
    hash % cap
  }

  lemma BackNext(i: nat, q: nat, cap: nat)
    requires i < cap && q + 1 < cap
    ensures Back(i, q + 1, cap) == Prev(Back(i, q, cap), cap)
    ensures Back(i, q + 1, cap) == Back(Prev(i, cap), q, cap)
    ensures Back(i, 0, cap) == i
  {
  }

  lemma DistNext(a: nat, b: nat, cap: nat)
    requires a < cap && b < cap
    ensures Next(b, cap) != a ==> Dist(a, Next(b, cap), cap) == Dist(a, b, cap) + 1
    ensures Dist(a, b, cap) > 0 ==> Dist(a, Prev(b, cap), cap) == Dist(a, b, cap) - 1
    ensures Prev(Next(b, cap), cap) == b && Next(Prev(b, cap), cap) == b
    ensures b != a ==> Dist(Next(b, cap), a, cap) == Dist(b, a, cap) - 1
  {
  }

  lemma BackDist(a: nat, b: nat, cap: nat)
    requires a < cap && b < cap
    ensures Back(b, Dist(a, b, cap), cap) == a
    ensures forall q: nat :: q <= Dist(a, b, cap) ==> Dist(a, Back(b, q, cap), cap) == Dist(a, b, cap) - q
  {
  }

  // ---- the invariant

  // An entry knows its hash and how far it sits from its home slot.
  ghost predicate PlacedAt<V>(t: seq<Slot<V>>, hf: Hash, i: nat) {
    i < |t| && t[i].Used? ==>
      t[i].hash == hf(t[i].key) && t[i].psl == Dist(Home(t[i].hash, |t|), i, |t|)
  }

  // An entry away from home follows an entry at least as far from its own home, less one.
  ghost predicate ChainAt<V>(t: seq<Slot<V>>, i: nat) {
    i < |t| && t[i].Used? && t[i].psl > 0 ==>
      t[Prev(i, |t|)].Used? && t[i].psl <= t[Prev(i, |t|)].psl + 1
  }

  ghost predicate Placed<V>(t: seq<Slot<V>>, hf: Hash) {
    forall i: nat {:trigger PlacedAt(t, hf, i)} :: PlacedAt(t, hf, i)
  }

  ghost predicate Chained<V>(t: seq<Slot<V>>) {
    forall i: nat {:trigger ChainAt(t, i)} :: ChainAt(t, i)
  }

  // The table holds exactly the pairs of m, each key once.
  ghost predicate Sound<V>(t: seq<Slot<V>>, m: map<string, V>) {
    forall i: nat {:trigger SoundAt(t, m, i)} :: SoundAt(t, m, i)
  }

  ghost predicate SoundAt<V>(t: seq<Slot<V>>, m: map<string, V>, i: nat) {
    i < |t| && t[i].Used? ==> t[i].key in m && m[t[i].key] == t[i].val
  }

  ghost predicate HasAt<V>(t: seq<Slot<V>>, k: string, i: nat) {
    i < |t| && t[i].Used? && t[i].key == k
  }

  ghost predicate Has<V>(t: seq<Slot<V>>, k: string) {
    exists i: nat :: HasAt(t, k, i)
  }

  ghost predicate Unique<V>(t: seq<Slot<V>>) {
    forall k: string, i: nat, j: nat :: HasAt(t, k, i) && HasAt(t, k, j) ==> i == j
  }

  ghost predicate Agrees<V>(t: seq<Slot<V>>, m: map<string, V>) {
    Sound(t, m) && Unique(t) && forall k: string :: k in m ==> Has(t, k)
  }

  function UsedCount<V>(t: seq<Slot<V>>): nat {
    if t == [] then 0 else (if t[0].Used? then 1 else 0) + UsedCount(t[1..])
  }

  lemma {:induction false} UsedApp<V>(a: seq<Slot<V>>, b: seq<Slot<V>>)
    ensures UsedCount(a + b) == UsedCount(a) + UsedCount(b)
  {
    if a == [] {
      assert a + b == b;
    } else {
      assert (a + b)[1..] == a[1..] + b;
      UsedApp(a[1..], b);
    }
  }

  lemma UsedOne<V>(s: Slot<V>)
    ensures UsedCount([s]) == if s.Used? then 1 else 0
  {
    assert [s][1..] == [];
  }

  lemma UsedSet<V>(t: seq<Slot<V>>, i: nat, s: Slot<V>)
    requires i < |t|
    ensures UsedCount(t[i := s]) + (if t[i].Used? then 1 else 0) == UsedCount(t) + (if s.Used? then 1 else 0)
  {
    var a, b := t[..i], t[i + 1..];
    assert t == a + [t[i]] + b && t[i := s] == a + [s] + b;
    UsedApp(a + [t[i]], b);
    UsedApp(a + [s], b);
    UsedApp(a, [t[i]]);
    UsedApp(a, [s]);
    UsedOne(t[i]);
    UsedOne(s);
  }

  // Fewer entries than slots leave a free slot.
  lemma {:induction false} FreeSlot<V>(t: seq<Slot<V>>) returns (f: nat)
    requires UsedCount(t) < |t|
    ensures f < |t| && t[f].Free?
  {
    if t[0].Free? {
      f := 0;
    } else {
      f := FreeSlot(t[1..]);
      f := f + 1;
    }
  }

  // ---- why a probe may stop early

  // Behind an entry p places from home, the slots back to its home are taken, by entries at least
  // correspondingly far from theirs.
  lemma {:induction false} BackRun<V>(t: seq<Slot<V>>, j: nat, p: nat, q: nat)
    requires Chained(t) && j < |t| && t[j].Used? && p <= t[j].psl && q <= p && p < |t|
    ensures var b := Back(j, q, |t|); t[b].Used? && p - q <= t[b].psl
  {
    if q > 0 {
      BackRun(t, j, p, q - 1);
      BackNext(j, q - 1, |t|);
      assert ChainAt(t, Back(j, q - 1, |t|));
    }
  }

  // A key i or more places from home makes slot i of its probe sequence taken by an entry with psl >= i.
  lemma ProbeReaches<V>(t: seq<Slot<V>>, hf: Hash, k: string, j: nat, i: nat, s: nat)
    requires Placed(t, hf) && Chained(t) && HasAt(t, k, j) && s < |t|
    requires i <= t[j].psl && Dist(Home(hf(k), |t|), s, |t|) == i
    ensures t[s].Used? && i <= t[s].psl
  {
    assert PlacedAt(t, hf, j);
    var h := Home(hf(k), |t|);
    var p := t[j].psl;
    BackRun(t, j, p, p - i);
    BackDist(h, j, |t|);
    assert Dist(h, Back(j, p - i, |t|), |t|) == i;
  }

  // ---- displacement: an entry e in flight, about to be tried at slot i

  ghost predicate InFlight<V>(t: seq<Slot<V>>, hf: Hash, e: Slot<V>, i: nat) {
    && i < |t| && e.Used? && e.hash == hf(e.key) && e.psl == Dist(Home(e.hash, |t|), i, |t|)
    && (e.psl > 0 ==> t[Prev(i, |t|)].Used? && e.psl <= t[Prev(i, |t|)].psl + 1)
  }

  // The table and the entry in flight together hold m.
  ghost predicate Holds<V>(t: seq<Slot<V>>, e: Slot<V>, m: map<string, V>) {
    && Sound(t, m) && Unique(t) && e.Used? && e.key in m && m[e.key] == e.val && !Has(t, e.key)
    && forall k: string :: k in m && k != e.key ==> Has(t, k)
  }

  lemma PlaceFree<V>(t: seq<Slot<V>>, hf: Hash, e: Slot<V>, i: nat)
    requires Placed(t, hf) && Chained(t) && InFlight(t, hf, e, i) && t[i].Free?
    ensures Placed(t[i := e], hf) && Chained(t[i := e])
  {
    var t' := t[i := e];
    forall j: nat ensures PlacedAt(t', hf, j) { assert PlacedAt(t, hf, j); }
    forall j: nat ensures ChainAt(t', j) { assert ChainAt(t, j); }
  }

  // Swapping with a richer entry.
  lemma Swap<V>(t: seq<Slot<V>>, hf: Hash, e: Slot<V>, i: nat)
    requires Placed(t, hf) && Chained(t) && InFlight(t, hf, e, i) && t[i].Used? && t[i].psl < e.psl
    requires |t| > 1
    ensures Placed(t[i := e], hf) && Chained(t[i := e])
    ensures InFlight(t[i := e], hf, t[i], i)
  {
    var t' := t[i := e];
    assert PlacedAt(t, hf, i) && ChainAt(t, i);
    forall j: nat ensures PlacedAt(t', hf, j) { assert PlacedAt(t, hf, j); }
    forall j: nat ensures ChainAt(t', j) { assert ChainAt(t, j); }
  }

  // One slot further, when the current one is taken by an entry at least as far from home.
  lemma Advance<V>(t: seq<Slot<V>>, hf: Hash, e: Slot<V>, i: nat, f: nat)
    requires Chained(t) && InFlight(t, hf, e, i) && t[i].Used? && e.psl <= t[i].psl
    requires f < |t| && t[f].Free?
    ensures InFlight(t, hf, e.(psl := e.psl + 1), Next(i, |t|))
    ensures Dist(Next(i, |t|), f, |t|) < Dist(i, f, |t|)
  {
    var cap := |t|;
    var h := Home(e.hash, cap);
    DistNext(h, i, cap);
    DistNext(f, i, cap);
    if Next(i, cap) == h {
      var q := Dist(f, i, cap);
      BackDist(f, i, cap);
      BackRun(t, i, e.psl, q);
      assert false;
    }
  }

  lemma HasSet<V>(t: seq<Slot<V>>, i: nat, s: Slot<V>, k: string)
    requires i < |t| && Unique(t)
    ensures Has(t[i := s], k) <==> (s.Used? && s.key == k) || (Has(t, k) && !HasAt(t, k, i))
  {
    var t' := t[i := s];
    if Has(t', k) {
      var j: nat :| HasAt(t', k, j);
      assert j == i || HasAt(t, k, j);
    }
    if s.Used? && s.key == k { assert HasAt(t', k, i); }
    if Has(t, k) && !HasAt(t, k, i) {
      var j: nat :| HasAt(t, k, j);
      assert HasAt(t', k, j);
    }
  }

  lemma UniqueSet<V>(t: seq<Slot<V>>, i: nat, s: Slot<V>)
    requires i < |t| && Unique(t)
    requires s.Used? ==> !Has(t, s.key) || HasAt(t, s.key, i)
    ensures Unique(t[i := s])
  {
    var t' := t[i := s];
    forall k: string, a: nat, b: nat | HasAt(t', k, a) && HasAt(t', k, b) ensures a == b {
      assert (a == i || HasAt(t, k, a)) && (b == i || HasAt(t, k, b));
    }
  }

  lemma SoundSet<V>(t: seq<Slot<V>>, m: map<string, V>, i: nat, s: Slot<V>)
    requires i < |t| && Sound(t, m) && (s.Used? ==> s.key in m && m[s.key] == s.val)
    ensures Sound(t[i := s], m)
  {
    var t' := t[i := s];
    forall j: nat ensures SoundAt(t', m, j) { assert SoundAt(t, m, j); }
  }

  lemma HoldsPlace<V>(t: seq<Slot<V>>, e: Slot<V>, m: map<string, V>, i: nat)
    requires Holds(t, e, m) && i < |t| && t[i].Free?
    ensures Agrees(t[i := e], m)
  {
    SoundSet(t, m, i, e);
    UniqueSet(t, i, e);
    forall k: string | k in m ensures Has(t[i := e], k) { HasSet(t, i, e, k); }
  }

  lemma HoldsSwap<V>(t: seq<Slot<V>>, e: Slot<V>, m: map<string, V>, i: nat)
    requires Holds(t, e, m) && i < |t| && t[i].Used?
    ensures Holds(t[i := e], t[i], m)
  {
    assert SoundAt(t, m, i) && HasAt(t, t[i].key, i);
    SoundSet(t, m, i, e);
    UniqueSet(t, i, e);
    forall k: string ensures k == t[i].key ==> !Has(t[i := e], k)
                     ensures k in m && k != t[i].key ==> Has(t[i := e], k)
    {
      HasSet(t, i, e, k);
    }
  }

  lemma HoldsStart<V>(t: seq<Slot<V>>, m: map<string, V>, e: Slot<V>)
    requires Agrees(t, m) && e.Used? && !Has(t, e.key)
    ensures e.key !in m && Holds(t, e, m[e.key := e.val])
  {
    var m' := m[e.key := e.val];
    forall i: nat ensures SoundAt(t, m', i) {
      assert SoundAt(t, m, i);
      if i < |t| && t[i].Used? { assert HasAt(t, t[i].key, i); }
    }
  }

  lemma HoldsStep<V>(t: seq<Slot<V>>, e: Slot<V>, m: map<string, V>)
    requires Holds(t, e, m)
    ensures Holds(t, e.(psl := e.psl + 1), m)
  {
  }

  // ---- backward shift: slot pos is a hole left by an entry that sat b places from home

  ghost predicate ChainBut<V>(t: seq<Slot<V>>, skip: nat) {
    forall i: nat {:trigger ChainAt(t, i)} :: i != skip ==> ChainAt(t, i)
  }

  ghost predicate Hole<V>(t: seq<Slot<V>>, hf: Hash, pos: nat, b: nat) {
    && pos < |t| && t[pos].Free? && Placed(t, hf) && ChainBut(t, Next(pos, |t|))
    && (b > 0 ==> t[Prev(pos, |t|)].Used? && b <= t[Prev(pos, |t|)].psl + 1)
    && (t[Next(pos, |t|)].Used? ==> t[Next(pos, |t|)].psl <= b + 1)
  }

  lemma HoleStart<V>(t: seq<Slot<V>>, hf: Hash, pos: nat)
    requires Placed(t, hf) && Chained(t) && pos < |t| && t[pos].Used? && |t| > 1
    ensures Hole(t[pos := Free], hf, pos, t[pos].psl)
  {
    var t' := t[pos := Free];
    forall i: nat ensures PlacedAt(t', hf, i) { assert PlacedAt(t, hf, i); }
    DistNext(pos, pos, |t|);
    forall i: nat | i != Next(pos, |t|) ensures ChainAt(t', i) {
      assert ChainAt(t, i);
      if i < |t| { DistNext(i, i, |t|); }
    }
    assert ChainAt(t, pos) && ChainAt(t, Next(pos, |t|));
  }

  // The next entry is home, or there is none: the hole can stay.
  lemma HoleEnd<V>(t: seq<Slot<V>>, hf: Hash, pos: nat, b: nat)
    requires Hole(t, hf, pos, b)
    requires var n := t[Next(pos, |t|)]; n.Free? || n.psl == 0
    ensures Placed(t, hf) && Chained(t)
  {
    forall i: nat ensures ChainAt(t, i) {
      if i != Next(pos, |t|) { assert ChainAt(t, i); }
    }
  }

  function Shifted<V>(t: seq<Slot<V>>, pos: nat): (r: seq<Slot<V>>)
    requires pos < |t| && t[Next(pos, |t|)].Used? && t[Next(pos, |t|)].psl > 0
    ensures |r| == |t|
  {
    var n := t[Next(pos, |t|)];
    t[pos := n.(psl := n.psl - 1)][Next(pos, |t|) := Free]
  }

  lemma HoleShift<V>(t: seq<Slot<V>>, hf: Hash, pos: nat, b: nat)
    requires Hole(t, hf, pos, b) && |t| > 2
    requires var n := t[Next(pos, |t|)]; n.Used? && n.psl > 0
    ensures Hole(Shifted(t, pos), hf, Next(pos, |t|), t[Next(pos, |t|)].psl)
  {
    var cap := |t|;
    var np := Next(pos, cap);
    var n := t[np];
    var t' := Shifted(t, pos);
    assert PlacedAt(t, hf, np);
    DistNext(Home(n.hash, cap), np, cap);
    forall i: nat ensures PlacedAt(t', hf, i) { assert PlacedAt(t, hf, i); }
    forall i: nat | i != Next(np, cap) ensures ChainAt(t', i) {
      if i != np { assert ChainAt(t, i); }
      if i < cap { DistNext(i, i, cap); }
    }
    assert ChainAt(t, Next(np, cap));
  }

  lemma ShiftedHas<V>(t: seq<Slot<V>>, pos: nat, k: string)
    requires pos < |t| && t[pos].Free? && t[Next(pos, |t|)].Used? && t[Next(pos, |t|)].psl > 0
    ensures Has(Shifted(t, pos), k) <==> Has(t, k)
  {
    var np := Next(pos, |t|);
    var t' := Shifted(t, pos);
    if Has(t, k) {
      var i: nat :| HasAt(t, k, i);
      assert HasAt(t', k, if i == np then pos else i);
    }
    if Has(t', k) {
      var i: nat :| HasAt(t', k, i);
      assert HasAt(t, k, if i == pos then np else i);
    }
  }

  lemma AgreesShift<V>(t: seq<Slot<V>>, m: map<string, V>, pos: nat)
    requires Agrees(t, m) && pos < |t| && t[pos].Free?
    requires t[Next(pos, |t|)].Used? && t[Next(pos, |t|)].psl > 0
    ensures Agrees(Shifted(t, pos), m)
  {
    var np := Next(pos, |t|);
    var t' := Shifted(t, pos);
    forall i: nat ensures SoundAt(t', m, i) { assert SoundAt(t, m, i) && SoundAt(t, m, np); }
    forall k: string, i: nat, j: nat | HasAt(t', k, i) && HasAt(t', k, j) ensures i == j {
      assert HasAt(t, k, if i == pos then np else i) && HasAt(t, k, if j == pos then np else j);
    }
    forall k: string | k in m ensures Has(t', k) { ShiftedHas(t, pos, k); }
  }

  lemma ShiftedCount<V>(t: seq<Slot<V>>, pos: nat)
    requires pos < |t| && t[pos].Free? && t[Next(pos, |t|)].Used? && t[Next(pos, |t|)].psl > 0
    ensures UsedCount(Shifted(t, pos)) == UsedCount(t)
  {
    var n := t[Next(pos, |t|)];
    UsedSet(t, pos, n.(psl := n.psl - 1));
    UsedSet(t[pos := n.(psl := n.psl - 1)], Next(pos, |t|), Free);
  }

  lemma AgreesRemove<V>(t: seq<Slot<V>>, m: map<string, V>, pos: nat)
    requires Agrees(t, m) && pos < |t| && t[pos].Used?
    ensures t[pos].key in m && Agrees(t[pos := Free], m - {t[pos].key})
  {
    var k0 := t[pos].key;
    var t', m' := t[pos := Free], m - {k0};
    assert SoundAt(t, m, pos) && HasAt(t, k0, pos);
    forall i: nat ensures SoundAt(t', m', i) {
      assert SoundAt(t, m, i);
      if i < |t| && i != pos && t[i].Used? && t[i].key == k0 {
        assert HasAt(t, k0, i);
        assert false;
      }
    }
    UniqueSet(t, pos, Free);
    forall k: string | k in m' ensures Has(t', k) { HasSet(t, pos, Free, k); }
  }

  lemma AgreesUpdate<V>(t: seq<Slot<V>>, m: map<string, V>, i: nat, val: V)
    requires Agrees(t, m) && i < |t| && t[i].Used?
    ensures t[i].key in m && Agrees(t[i := t[i].(val := val)], m[t[i].key := val])
  {
    var s := t[i].(val := val);
    var t', m' := t[i := s], m[s.key := val];
    assert SoundAt(t, m, i) && HasAt(t, s.key, i);
    forall j: nat ensures SoundAt(t', m', j) {
      assert SoundAt(t, m, j);
      if j < |t| && t[j].Used? && t[j].key == s.key { assert HasAt(t, s.key, j); }
    }
    UniqueSet(t, i, s);
    forall k: string | k in m' ensures Has(t', k) { HasSet(t, i, s, k); }
  }

  lemma PlacedUpdate<V>(t: seq<Slot<V>>, hf: Hash, i: nat, val: V)
    requires Placed(t, hf) && Chained(t) && i < |t| && t[i].Used?
    ensures Placed(t[i := t[i].(val := val)], hf) && Chained(t[i := t[i].(val := val)])
  {
    var t' := t[i := t[i].(val := val)];
    forall j: nat ensures PlacedAt(t', hf, j) { assert PlacedAt(t, hf, j); }
    forall j: nat ensures ChainAt(t', j) { assert ChainAt(t, j); }
  }

  // ---- the search loops

  lemma Wrap(x: nat, cap: nat)
    requires 0 < cap && x < 2 * cap
    ensures x % cap == if x < cap then x else x - cap
  {
    if x >= cap {
      var q := x / cap;
      assert x == q * cap + x % cap;
      assert q == 1;
    }
  }

  // Slot i of the probe sequence of key k.
  function Probe(hf: Hash, k: string, i: nat, cap: nat): (r: nat)
    requires i < cap
    ensures r < cap
  {
    (Home(hf(k), cap) + i) % cap
  }

  lemma ProbeDist(hf: Hash, k: string, i: nat, cap: nat)
    requires i < cap
    ensures Dist(Home(hf(k), cap), Probe(hf, k, i, cap), cap) == i
  {
    Wrap(Home(hf(k), cap) + i, cap);
  }

  // Neither a free slot nor an entry closer to home than the probe has gone can come before the key.
  lemma NotBefore<V>(t: seq<Slot<V>>, hf: Hash, k: string, i: nat)
    requires Placed(t, hf) && Chained(t) && i < |t|
    requires var s := t[Probe(hf, k, i, |t|)]; s.Free? || s.psl < i
    requires forall q: nat :: q < i ==> !HasAt(t, k, Probe(hf, k, q, |t|))
    requires !HasAt(t, k, Probe(hf, k, i, |t|))
    ensures !Has(t, k)
  {
    if Has(t, k) {
      var j: nat :| HasAt(t, k, j);
      assert PlacedAt(t, hf, j);
      var p := t[j].psl;
      ProbeIs(hf, k, j, p, |t|);
      ProbeDist(hf, k, i, |t|);
      ProbeReaches(t, hf, k, j, i, Probe(hf, k, i, |t|));
      assert false;
    }
  }

  lemma ProbeIs(hf: Hash, k: string, j: nat, p: nat, cap: nat)
    requires j < cap && p == Dist(Home(hf(k), cap), j, cap)
    ensures Probe(hf, k, p, cap) == j
  {
    Wrap(Home(hf(k), cap) + p, cap);
  }

  // A probe through the whole table misses no key.
  lemma NotAnywhere<V>(t: seq<Slot<V>>, hf: Hash, k: string)
    requires Placed(t, hf) && forall q: nat :: q < |t| ==> !HasAt(t, k, Probe(hf, k, q, |t|))
    ensures !Has(t, k)
  {
    if Has(t, k) {
      var j: nat :| HasAt(t, k, j);
      assert PlacedAt(t, hf, j);
      ProbeIs(hf, k, j, t[j].psl, |t|);
      assert false;
    }
  }
}
