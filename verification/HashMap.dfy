// The string map over a Robin Hood slot array: set, get, delete, growth, clearing and iteration.

module HashMap {
  import opened Shared
  import opened RobinHood

  predicate IsPow2(c: nat)
    decreases c
  {
    c == 1 || (c > 1 && c % 2 == 0 && IsPow2(c / 2))
  }

  lemma Pow2By4(c: nat)
    requires IsPow2(c) && c >= 4
    ensures c % 4 == 0
  {
    var d := c / 2;
    assert d > 1 && IsPow2(d) && d % 2 == 0;
    assert c == 2 * d;
  }

  // Below three quarters there is room for one more within them.
  lemma RoomForOne(c: nat, n: nat)
    requires IsPow2(c) && c >= 8 && 4 * n < 3 * c
    ensures 4 * (n + 1) <= 3 * c && n < c
  {
    Pow2By4(c);
  }

  // Slot array t, with count n, stands for the map m.
  ghost predicate Represents<V>(t: seq<Slot<V>>, hf: Hash, m: map<string, V>, n: nat) {
    && |t| >= 8 && IsPow2(|t|)
    && Placed(t, hf) && Chained(t) && Agrees(t, m)
    && n == UsedCount(t) == |m|
  }

  // The first i slots of the probe sequence do not hold key k.
  ghost predicate Missed<V>(t: seq<Slot<V>>, hf: Hash, k: string, i: nat) {
    i <= |t| && forall q: nat {:trigger Probe(hf, k, q, |t|)} :: q < i ==> !HasAt(t, k, Probe(hf, k, q, |t|))
  }

  // A slot with another hash or another key does not hold the key.
  lemma NotTheKey<V>(t: seq<Slot<V>>, hf: Hash, k: string, pos: nat)
    requires Placed(t, hf) && pos < |t| && t[pos].Used? && !(t[pos].hash == hf(k) && t[pos].key == k)
    ensures !HasAt(t, k, pos)
  {
    assert PlacedAt(t, hf, pos);
  }

  lemma MissedMore<V>(t: seq<Slot<V>>, hf: Hash, k: string, i: nat, pos: nat)
    requires Missed(t, hf, k, i) && i < |t| && pos == Probe(hf, k, i, |t|) && !HasAt(t, k, pos)
    ensures Missed(t, hf, k, i + 1)
  {
  }

  lemma AbsentKey<V>(t: seq<Slot<V>>, m: map<string, V>, k: string)
    requires Agrees(t, m)
    ensures k in m <==> Has(t, k)
  {
    if Has(t, k) {
      var i: nat :| HasAt(t, k, i);
      assert SoundAt(t, m, i);
    }
  }

  // The search may stop at a free slot and at an entry nearer home than the probe has gone.
  lemma StopHere<V>(t: seq<Slot<V>>, hf: Hash, m: map<string, V>, k: string, i: nat, pos: nat)
    requires Placed(t, hf) && Chained(t) && Agrees(t, m) && Missed(t, hf, k, i)
    requires i < |t| && pos == Probe(hf, k, i, |t|) && !HasAt(t, k, pos)
    requires t[pos].Free? || t[pos].psl < i
    ensures k !in m
  {
    NotBefore(t, hf, k, i);
    AbsentKey(t, m, k);
  }

  lemma SearchedAll<V>(t: seq<Slot<V>>, hf: Hash, m: map<string, V>, k: string)
    requires Placed(t, hf) && Agrees(t, m) && Missed(t, hf, k, |t|)
    ensures k !in m
  {
    NotAnywhere(t, hf, k);
    AbsentKey(t, m, k);
  }

  lemma FoundHere<V>(t: seq<Slot<V>>, m: map<string, V>, k: string, pos: nat)
    requires Agrees(t, m) && HasAt(t, k, pos)
    ensures k in m && m[k] == t[pos].val
  {
    assert SoundAt(t, m, pos);
  }

  lemma UpdateHere<V>(t: seq<Slot<V>>, hf: Hash, m: map<string, V>, n: nat, pos: nat, val: V)
    requires Represents(t, hf, m, n) && pos < |t| && t[pos].Used?
    ensures Represents(t[pos := t[pos].(val := val)], hf, m[t[pos].key := val], n)
  {
    AgreesUpdate(t, m, pos, val);
    PlacedUpdate(t, hf, pos, val);
    UsedSet(t, pos, t[pos].(val := val));
    assert m[t[pos].key := val].Keys == m.Keys;
  }

  lemma EmptyTable<V>(t: seq<Slot<V>>, hf: Hash)
    requires forall i :: 0 <= i < |t| ==> t[i].Free?
    ensures Placed(t, hf) && Chained(t) && Agrees(t, map[]) && UsedCount(t) == 0
  {
    NoneUsed(t);
    var m: map<string, V> := map[];
    assert forall i: nat :: PlacedAt(t, hf, i) && ChainAt(t, i) && SoundAt(t, m, i);
  }

  lemma {:induction false} NoneUsed<V>(t: seq<Slot<V>>)
    requires forall i :: 0 <= i < |t| ==> t[i].Free?
    ensures UsedCount(t) == 0
  {
    if t != [] { NoneUsed(t[1..]); }
  }

  // ---- the two searches

  // The search made before an insertion: up to a free slot.
  method FindAny<V>(slots: array<Slot<V>>, hf: Hash, key: string, ghost m: map<string, V>, ghost n: nat)
    returns (r: Option<nat>)
    requires Represents(slots[..], hf, m, n)
    ensures r.Some? <==> key in m
    ensures r.Some? ==> HasAt(slots[..], key, r.value)
  {
    var h := hf(key);
    var i := 0;
    ghost var t := slots[..];
    while i < slots.Length
      invariant i <= |t| && Missed(t, hf, key, i)
    {
      var pos := Probe(hf, key, i, slots.Length);
      assert slots[pos] == t[pos];
      if slots[pos].Free? {
        StopHere(t, hf, m, key, i, pos);
        return None;
      }
      if slots[pos].hash == h && slots[pos].key == key {
        FoundHere(t, m, key, pos);
        return Some(pos);
      }
      NotTheKey(t, hf, key, pos);
      MissedMore(t, hf, key, i, pos);
      i := i + 1;
    }
    SearchedAll(t, hf, m, key);
    return None;
  }

  // The search of lookup and deletion: it also stops at an entry nearer its home than the probe has gone.
  method FindEarly<V>(slots: array<Slot<V>>, hf: Hash, key: string, ghost m: map<string, V>, ghost n: nat)
    returns (r: Option<nat>)
    requires Represents(slots[..], hf, m, n)
    ensures r.Some? <==> key in m
    ensures r.Some? ==> HasAt(slots[..], key, r.value) && slots[r.value].val == m[key]
  {
    var h := hf(key);
    var i := 0;
    ghost var t := slots[..];
    while i < slots.Length
      invariant i <= |t| && Missed(t, hf, key, i)
    {
      var pos := Probe(hf, key, i, slots.Length);
      assert slots[pos] == t[pos];
      if slots[pos].Free? {
        StopHere(t, hf, m, key, i, pos);
        return None;
      }
      if slots[pos].hash == h && slots[pos].key == key {
        FoundHere(t, m, key, pos);
        return Some(pos);
      }
      NotTheKey(t, hf, key, pos);
      if slots[pos].psl < i {
        StopHere(t, hf, m, key, i, pos);
        return None;
      }
      MissedMore(t, hf, key, i, pos);
      i := i + 1;
    }
    SearchedAll(t, hf, m, key);
    return None;
  }

  // ---- insertion by displacement

  // One round of the insertion loop has e tried at slot i; f is a free slot.
  ghost predicate Round<V>(t: seq<Slot<V>>, hf: Hash, e: Slot<V>, i: nat, m: map<string, V>, f: nat) {
    && |t| > 1 && f < |t| && t[f].Free?
    && Placed(t, hf) && Chained(t) && InFlight(t, hf, e, i) && Holds(t, e, m)
  }

  lemma RoundStart<V>(t: seq<Slot<V>>, hf: Hash, e: Slot<V>, m: map<string, V>) returns (f: nat)
    requires |t| > 1 && UsedCount(t) < |t| && Placed(t, hf) && Chained(t) && Agrees(t, m)
    requires e.Used? && e.hash == hf(e.key) && e.psl == 0 && e.key !in m
    ensures Round(t, hf, e, Home(e.hash, |t|), m[e.key := e.val], f)
  {
    f := FreeSlot(t);
    AbsentKey(t, m, e.key);
    HoldsStart(t, m, e);
  }

  lemma RoundEnd<V>(t: seq<Slot<V>>, hf: Hash, e: Slot<V>, i: nat, m: map<string, V>, f: nat)
    requires Round(t, hf, e, i, m, f) && t[i].Free?
    ensures Placed(t[i := e], hf) && Chained(t[i := e]) && Agrees(t[i := e], m)
    ensures UsedCount(t[i := e]) == UsedCount(t) + 1
  {
    PlaceFree(t, hf, e, i);
    HoldsPlace(t, e, m, i);
    UsedSet(t, i, e);
  }

  lemma RoundSwap<V>(t: seq<Slot<V>>, hf: Hash, e: Slot<V>, i: nat, m: map<string, V>, f: nat)
    requires Round(t, hf, e, i, m, f) && t[i].Used? && t[i].psl < e.psl
    ensures Round(t[i := e], hf, t[i], i, m, f) && UsedCount(t[i := e]) == UsedCount(t)
  {
    Swap(t, hf, e, i);
    HoldsSwap(t, e, m, i);
    UsedSet(t, i, e);
  }

  lemma RoundNext<V>(t: seq<Slot<V>>, hf: Hash, e: Slot<V>, i: nat, m: map<string, V>, f: nat)
    requires Round(t, hf, e, i, m, f) && t[i].Used? && e.psl <= t[i].psl
    ensures Round(t, hf, e.(psl := e.psl + 1), Next(i, |t|), m, f)
    ensures Dist(Next(i, |t|), f, |t|) < Dist(i, f, |t|)
  {
    Advance(t, hf, e, i, f);
    HoldsStep(t, e, m);
  }

  // Puts entry e0, whose key is not in the table, into a slot array with room.
  method InsertSlot<V(0)>(slots: array<Slot<V>>, hf: Hash, e0: Slot<V>, ghost m: map<string, V>)
    requires slots.Length > 1 && UsedCount(slots[..]) < slots.Length
    requires Placed(slots[..], hf) && Chained(slots[..]) && Agrees(slots[..], m)
    requires e0.Used? && e0.hash == hf(e0.key) && e0.psl == 0 && e0.key !in m
    modifies slots
    ensures Placed(slots[..], hf) && Chained(slots[..]) && Agrees(slots[..], m[e0.key := e0.val])
    ensures UsedCount(slots[..]) == UsedCount(old(slots[..])) + 1
  {
    var cap := slots.Length;
    var e := e0;
    var idx: nat := Home(e0.hash, cap);
    ghost var m1 := m[e0.key := e0.val];
    ghost var t := slots[..];
    ghost var f := RoundStart(t, hf, e, m);
    while true
      invariant slots[..] == t && Round(t, hf, e, idx, m1, f)
      invariant UsedCount(t) == UsedCount(old(slots[..]))
      decreases Dist(idx, f, |t|)
    {
      assert slots[idx] == t[idx];
      if slots[idx].Free? {
        RoundEnd(t, hf, e, idx, m1, f);
        slots[idx] := e;
        assert slots[..] == t[idx := e];
        return;
      }
      if slots[idx].psl < e.psl {
        RoundSwap(t, hf, e, idx, m1, f);
        var tmp := slots[idx];
        slots[idx] := e;
        t := t[idx := e];
        e := tmp;
      }
      RoundNext(t, hf, e, idx, m1, f);
      e, idx := e.(psl := e.psl + 1), Next(idx, cap);
    }
  }

  method UpdateAt<V(0)>(slots: array<Slot<V>>, hf: Hash, key: string, pos: nat, val: V,
                        ghost m: map<string, V>, ghost n: nat)
    requires Represents(slots[..], hf, m, n) && HasAt(slots[..], key, pos)
    modifies slots
    ensures Represents(slots[..], hf, m[key := val], n)
  {
    ghost var t := slots[..];
    UpdateHere(t, hf, m, n, pos, val);
    slots[pos] := slots[pos].(val := val);
    assert slots[..] == t[pos := t[pos].(val := val)];
  }

  lemma OneMore<V>(m: map<string, V>, k: string, v: V)
    requires k !in m
    ensures |m[k := v]| == |m| + 1
  {
    assert m[k := v].Keys == m.Keys + {k};
  }

  method InsertNew<V(0)>(slots: array<Slot<V>>, hf: Hash, e: Slot<V>, ghost m: map<string, V>, ghost n: nat)
    requires Represents(slots[..], hf, m, n) && n < slots.Length
    requires e.Used? && e.hash == hf(e.key) && e.psl == 0 && e.key !in m
    modifies slots
    ensures Represents(slots[..], hf, m[e.key := e.val], n + 1)
  {
    InsertSlot(slots, hf, e, m);
    OneMore(m, e.key, e.val);
  }

  // Sets the value of a key where some slot beyond a quarter of them is free.
  method SetSlots<V(0)>(slots: array<Slot<V>>, hf: Hash, key: string, val: V, ghost m: map<string, V>, n: nat)
    returns (n1: nat)
    requires Represents(slots[..], hf, m, n) && 4 * n < 3 * slots.Length
    modifies slots
    ensures Represents(slots[..], hf, m[key := val], n1) && 4 * n1 <= 3 * slots.Length
  {
    var pos := FindAny(slots, hf, key, m, n);
    if pos.Some? {
      UpdateAt(slots, hf, key, pos.value, val, m, n);
      return n;
    }
    RoomForOne(slots.Length, n);
    InsertNew(slots, hf, Used(key, val, hf(key), 0), m, n);
    return n + 1;
  }

  // ---- rehashing: the first i slots of t are already in u

  ghost predicate Moved<V>(t: seq<Slot<V>>, m: map<string, V>, i: nat, done: map<string, V>) {
    && i <= |t|
    && (forall k: string :: k in done ==> k in m && done[k] == m[k])
    && (forall k: string :: k in done ==> exists j: nat :: j < i && HasAt(t, k, j))
    && (forall k: string, j: nat :: j < i && HasAt(t, k, j) ==> k in done)
  }

  lemma MovedMore<V>(t: seq<Slot<V>>, m: map<string, V>, i: nat, done: map<string, V>)
    requires Agrees(t, m) && Moved(t, m, i, done) && i < |t|
    ensures t[i].Free? ==> Moved(t, m, i + 1, done)
    ensures t[i].Used? ==> t[i].key !in done && Moved(t, m, i + 1, done[t[i].key := t[i].val])
    ensures UsedCount(t[..i + 1]) == UsedCount(t[..i]) + if t[i].Used? then 1 else 0
  {
    assert t[..i + 1] == t[..i] + [t[i]];
    UsedApp(t[..i], [t[i]]);
    UsedOne(t[i]);
    if t[i].Used? {
      assert SoundAt(t, m, i) && HasAt(t, t[i].key, i);
    }
  }

  lemma MovedAll<V>(t: seq<Slot<V>>, m: map<string, V>, done: map<string, V>)
    requires Agrees(t, m) && Moved(t, m, |t|, done)
    ensures done == m && t[..|t|] == t
  {
    forall k: string | k in m ensures k in done { assert Has(t, k); }
  }

  lemma {:induction false} UsedBound<V>(t: seq<Slot<V>>)
    ensures UsedCount(t) <= |t|
  {
    if t != [] { UsedBound(t[1..]); }
  }

  // Moves every entry of old slots into fresh ones of twice the capacity, from its new home.
  // Slot i of the old array, into the new one if it is taken.
  method MoveOver<V(0)>(newslots: array<Slot<V>>, s: Slot<V>, ghost t: seq<Slot<V>>, hf: Hash, ghost m: map<string, V>,
                        ghost i: nat, ghost done: map<string, V>)
    returns (ghost done': map<string, V>)
    requires i < |t| && s == t[i] && newslots.Length == 2 * |t| && Placed(t, hf) && |t| >= 8 && IsPow2(2 * |t|)
    requires Agrees(t, m) && Moved(t, m, i, done)
    requires Placed(newslots[..], hf) && Chained(newslots[..]) && Agrees(newslots[..], done)
    requires UsedCount(newslots[..]) == UsedCount(t[..i])
    modifies newslots
    ensures Placed(newslots[..], hf) && Chained(newslots[..]) && Agrees(newslots[..], done')
    ensures Moved(t, m, i + 1, done') && UsedCount(newslots[..]) == UsedCount(t[..i + 1])
  {
    MovedMore(t, m, i, done);
    UsedBound(t[..i]);
    done' := done;
    if s.Used? {
      assert PlacedAt(t, hf, i);
      InsertSlot(newslots, hf, s.(psl := 0), done);
      done' := done[s.key := s.val];
    }
  }

  method Rehash<V(0)>(slots: array<Slot<V>>, hf: Hash, ghost m: map<string, V>, ghost n: nat)
    returns (newslots: array<Slot<V>>)
    requires Represents(slots[..], hf, m, n)
    ensures fresh(newslots) && newslots.Length == 2 * slots.Length
    ensures Represents(newslots[..], hf, m, n)
  {
    hide Placed, Chained, Agrees, UsedCount;
    var newcap := slots.Length * 2;
    newslots := new Slot<V>[newcap](_ => Free);
    EmptyTable(newslots[..], hf);
    ghost var done: map<string, V> := map[];
    ghost var t := slots[..];
    NoneUsed(t[..0]);
    for i := 0 to slots.Length
      modifies newslots
      invariant slots[..] == t
      invariant Placed(newslots[..], hf) && Chained(newslots[..]) && Agrees(newslots[..], done)
      invariant Moved(t, m, i, done)
      invariant UsedCount(newslots[..]) == UsedCount(t[..i])
    {
      assert slots[i] == t[i];
      done := MoveOver(newslots, slots[i], t, hf, m, i, done);
    }
    MovedAll(t, m, done);
  }

  // ---- deletion by backward shift

  // The array is t except at the hole pos; f is a free slot ahead.
  ghost predicate Shifting<V>(t: seq<Slot<V>>, hf: Hash, m: map<string, V>, n: nat, pos: nat, b: nat) {
    && |t| >= 8 && IsPow2(|t|) && Hole(t, hf, pos, b) && Agrees(t, m) && n == UsedCount(t) == |m|
  }

  lemma ShiftStart<V>(t: seq<Slot<V>>, hf: Hash, m: map<string, V>, n: nat, pos: nat)
    requires Represents(t, hf, m, n) && pos < |t| && t[pos].Used?
    ensures n > 0 && Shifting(t[pos := Free], hf, m - {t[pos].key}, n - 1, pos, t[pos].psl)
  {
    HoleStart(t, hf, pos);
    AgreesRemove(t, m, pos);
    UsedSet(t, pos, Free);
    assert (m - {t[pos].key}).Keys == m.Keys - {t[pos].key};
  }

  lemma ShiftMore<V>(t: seq<Slot<V>>, hf: Hash, m: map<string, V>, n: nat, pos: nat, b: nat)
    requires Shifting(t, hf, m, n, pos, b)
    requires t[Next(pos, |t|)].Used? && t[Next(pos, |t|)].psl > 0
    ensures Shifting(Shifted(t, pos), hf, m, n, Next(pos, |t|), t[Next(pos, |t|)].psl)
  {
    HoleShift(t, hf, pos, b);
    AgreesShift(t, m, pos);
    ShiftedCount(t, pos);
  }

  lemma ShiftEnd<V>(t: seq<Slot<V>>, hf: Hash, m: map<string, V>, n: nat, pos: nat, b: nat)
    requires Shifting(t, hf, m, n, pos, b)
    requires t[Next(pos, |t|)].Free? || t[Next(pos, |t|)].psl == 0
    ensures Represents(t, hf, m, n)
  {
    HoleEnd(t, hf, pos, b);
  }

  lemma HoleMoves<V>(s: seq<Slot<V>>, t: seq<Slot<V>>, pos: nat)
    requires pos < |s| == |t| && 2 <= |t| && t == s[pos := Free]
    requires t[Next(pos, |t|)].Used? && t[Next(pos, |t|)].psl > 0
    ensures var np := Next(pos, |s|); Shifted(t, pos) == s[pos := s[np].(psl := s[np].psl - 1)][np := Free]
  {
  }

  // The free slot ahead stays free, and the hole comes nearer to it.
  lemma FreeAhead<V>(t: seq<Slot<V>>, pos: nat, f: nat)
    requires pos < |t| && 2 <= |t| && f < |t| && t[f].Free? && f != pos
    requires t[Next(pos, |t|)].Used? && t[Next(pos, |t|)].psl > 0
    ensures |Shifted(t, pos)| == |t| && Shifted(t, pos)[f].Free? && f != Next(pos, |t|)
    ensures Dist(Next(pos, |t|), f, |t|) < Dist(pos, f, |t|)
  {
  }

  // Copying the next entry over the hole; its old slot is the hole then.
  method MoveBack<V(0)>(slots: array<Slot<V>>, pos: nat, npos: nat, ghost t: seq<Slot<V>>)
    requires 2 <= |t| == slots.Length && pos < |t| && t == slots[..][pos := Free] && npos == Next(pos, |t|)
    requires t[npos].Used? && t[npos].psl > 0
    modifies slots
    ensures Shifted(t, pos) == slots[..][npos := Free]
  {
    ghost var s := slots[..];
    slots[pos] := slots[npos].(psl := slots[npos].psl - 1);
    HoleMoves(s, t, pos);
    assert slots[..] == s[pos := s[npos].(psl := s[npos].psl - 1)];
  }

  // One round of the shifting loop: t is the array with the hole at pos emptied, f a free slot ahead.
  method ShiftRound<V(0)>(slots: array<Slot<V>>, hf: Hash, pos: nat, ghost m: map<string, V>, ghost n: nat,
                          ghost t: seq<Slot<V>>, ghost b: nat, ghost f: nat)
    returns (done: bool, npos: nat, ghost t1: seq<Slot<V>>, ghost b1: nat)
    requires pos < |t| == slots.Length && t == slots[..][pos := Free] && Shifting(t, hf, m, n, pos, b)
    requires f < |t| && t[f].Free? && f != pos
    modifies slots
    ensures done ==> Represents(slots[..], hf, m, n)
    ensures !done ==> npos < |t1| == |t| && t1 == slots[..][npos := Free] && Shifting(t1, hf, m, n, npos, b1)
    ensures !done ==> t1[f].Free? && f != npos && Dist(npos, f, |t|) < Dist(pos, f, |t|)
  {
    npos, t1, b1 := Next(pos, slots.Length), t, b;
    assert slots[npos] == t[npos];
    done := slots[npos].Free? || slots[npos].psl == 0;
    if done {
      ShiftEnd(t, hf, m, n, pos, b);
      slots[pos] := Free;
      assert slots[..] == t;
    } else {
      ShiftMore(t, hf, m, n, pos, b);
      FreeAhead(t, pos, f);
      b1, t1 := t[npos].psl, Shifted(t, pos);
      MoveBack(slots, pos, npos, t);
    }
  }

  // Empties slot p0; the entries behind it move back one slot each, until one is home or none is there.
  method BackShift<V(0)>(slots: array<Slot<V>>, hf: Hash, ghost m: map<string, V>, ghost n: nat, p0: nat)
    requires Represents(slots[..], hf, m, n) && n < slots.Length && p0 < slots.Length && slots[p0].Used?
    modifies slots
    ensures n > 0 && Represents(slots[..], hf, m - {old(slots[p0].key)}, n - 1)
  {
    ghost var t := slots[..];
    ghost var f := FreeSlot(t);
    ghost var b := t[p0].psl;
    ghost var m1 := m - {t[p0].key};
    ShiftStart(t, hf, m, n, p0);
    slots[p0] := Free;
    t := t[p0 := Free];
    var pos: nat, done := p0, false;
    while !done
      invariant done ==> Represents(slots[..], hf, m1, n - 1)
      invariant !done ==> pos < |t| == slots.Length && t == slots[..][pos := Free] && Shifting(t, hf, m1, n - 1, pos, b)
      invariant !done ==> f < |t| && t[f].Free? && f != pos
      decreases !done, if done then 0 else Dist(pos, f, |t|)
    {
      done, pos, t, b := ShiftRound(slots, hf, pos, m1, n - 1, t, b, f);
    }
  }

  // ---- iteration

  // Keys and values are those of the first i slots, in slot order.
  ghost predicate Visited<V>(t: seq<Slot<V>>, i: nat, keys: seq<string>, vals: seq<V>, at: seq<nat>) {
    && i <= |t| && |keys| == |vals| == |at|
    && (forall a :: 0 <= a < |at| ==> at[a] < i && HasAt(t, keys[a], at[a]) && vals[a] == t[at[a]].val)
    && (forall a, b :: 0 <= a < b < |at| ==> at[a] < at[b])
    && (forall j :: 0 <= j < i && t[j].Used? ==> t[j].key in keys)
  }

  lemma VisitedMore<V>(t: seq<Slot<V>>, i: nat, j: nat, keys: seq<string>, vals: seq<V>, at: seq<nat>)
    requires Visited(t, i, keys, vals, at) && i <= j < |t| && t[j].Used?
    requires forall q :: i <= q < j ==> t[q].Free?
    ensures Visited(t, j + 1, keys + [t[j].key], vals + [t[j].val], at + [j])
  {
    forall q | 0 <= q < j + 1 && t[q].Used? ensures t[q].key in keys + [t[j].key] {
      if q < i { assert t[q].key in keys; }
    }
  }

  // After the last entry, each key of the map was seen once, with its value.
  lemma VisitedAll<V>(t: seq<Slot<V>>, m: map<string, V>, i: nat, keys: seq<string>, vals: seq<V>, at: seq<nat>)
    requires Agrees(t, m) && Visited(t, i, keys, vals, at) && forall q :: i <= q < |t| ==> t[q].Free?
    ensures forall a :: 0 <= a < |keys| ==> keys[a] in m && vals[a] == m[keys[a]]
    ensures forall a, b :: 0 <= a < b < |keys| ==> keys[a] != keys[b]
    ensures forall k: string :: k in m <==> k in keys
  {
    forall a | 0 <= a < |keys| ensures keys[a] in m && vals[a] == m[keys[a]] { assert SoundAt(t, m, at[a]); }
    forall a, b | 0 <= a < b < |keys| ensures keys[a] != keys[b] {
      assert HasAt(t, keys[a], at[a]) && HasAt(t, keys[b], at[b]);
    }
    forall k: string | k in m ensures k in keys {
      assert Has(t, k);
      var j: nat :| HasAt(t, k, j);
    }
  }

  // hf is the hash of a key, any function; the home slot of a hash is its remainder by the capacity, a
  // power of two.
  method Capacity(cap: nat) returns (c: nat)
    ensures IsPow2(c) && c >= 8 && c >= cap && (c > 8 ==> c < 2 * cap)
  {
    c := 1;
    var want := if cap < 8 then 8 else cap;
    while c < want
      invariant IsPow2(c) && c < 2 * want
      invariant c <= 8 || c < 2 * cap
      invariant c in {1, 2, 4, 8} || c > 8
      decreases 2 * want - c
    {
      c := c * 2;
    }
  }

  class HashMap<V(0)> {
    var slots: array<Slot<V>>
    var count: nat
    const hf: Hash
    ghost var m: map<string, V>      // the map the table stands for

    // At rest at most three quarters of the slots are taken.
    ghost predicate Valid()
      reads this, slots
    {
      Represents(slots[..], hf, m, count) && 4 * count <= 3 * slots.Length
    }

    // The capacity is the least power of two that is at least 8 and at least cap.
    constructor (hf: Hash, cap: nat)
      ensures Valid() && m == map[] && fresh(slots) && this.hf == hf
      ensures slots.Length >= cap && (slots.Length > 8 ==> slots.Length < 2 * cap)
    {
      var c := Capacity(cap);
      this.hf := hf;
      slots := new Slot<V>[c](_ => Free);
      count, m := 0, map[];
      new;
      EmptyTable(slots[..], hf);
    }

    // Sets the value of a key, adding the key if it is new; the table grows first when three quarters full.
    method Set(key: string, val: V)
      requires Valid()
      modifies this, slots
      ensures Valid() && m == old(m)[key := val]
      ensures slots == old(slots) || fresh(slots)
      ensures slots.Length ==
              if 4 * old(count) >= 3 * old(slots.Length) then 2 * old(slots.Length) else old(slots.Length)
    {
      if count * 4 >= slots.Length * 3 {
        slots := Rehash(slots, hf, m, count);
      }
      count := SetSlots(slots, hf, key, val, m, count);
      m := m[key := val];
    }

    // The value of a key, if any.
    method Get(key: string) returns (r: Option<V>)
      requires Valid()
      ensures r == if key in m then Some(m[key]) else None
    {
      var pos := FindEarly(slots, hf, key, m, count);
      r := if pos.Some? then Some(slots[pos.value].val) else None;
    }

    // Removes a key.
    method Del(key: string) returns (found: bool)
      requires Valid()
      modifies this`count, this`m, slots
      ensures Valid() && m == old(m) - {key} && found == (key in old(m))
    {
      var pos := FindEarly(slots, hf, key, m, count);
      found := pos.Some?;
      if found {
        BackShift(slots, hf, m, count, pos.value);
        count := count - 1;
        m := m - {key};
      } else {
        assert m - {key} == m;
      }
    }

    method Clear()
      requires Valid()
      modifies this`count, this`m, slots
      ensures Valid() && m == map[]
    {
      for i := 0 to slots.Length
        modifies slots
        invariant forall j :: 0 <= j < i ==> slots[j].Free?
      {
        slots[i] := Free;
      }
      count, m := 0, map[];
      EmptyTable(slots[..], hf);
    }

    // The next entry at or after slot idx, and where to go on; -1 when there is none.
    method NextEntry(idx: nat) returns (next: int, k: string, v: Option<V>)
      ensures next == -1 <==> forall i :: idx <= i < slots.Length ==> slots[i].Free?
      ensures next != -1 ==> idx < next <= slots.Length && slots[next - 1].Used?
      ensures next != -1 ==> k == slots[next - 1].key && v == Some(slots[next - 1].val)
      ensures next != -1 ==> forall i :: idx <= i < next - 1 ==> slots[i].Free?
    {
      k, v := "", None;
      var i: int := idx;
      while i < slots.Length
        invariant idx <= i
        invariant forall j :: idx <= j < i && j < slots.Length ==> slots[j].Free?
      {
        if slots[i].Used? {
          return i + 1, slots[i].key, Some(slots[i].val);
        }
        i := i + 1;
      }
      next := -1;
    }

    // Iterating from 0 until -1 yields each live key exactly once, with its value.
    method Drain() returns (keys: seq<string>, vals: seq<V>)
      requires Valid()
      ensures |keys| == |vals|
      ensures forall i :: 0 <= i < |keys| ==> keys[i] in m && vals[i] == m[keys[i]]
      ensures forall i, j :: 0 <= i < j < |keys| ==> keys[i] != keys[j]
      ensures forall k: string :: k in m <==> k in keys
    {
      keys, vals := [], [];
      var idx := 0;
      ghost var t := slots[..];
      ghost var at: seq<nat> := [];
      while true
        invariant idx <= slots.Length && Visited(t, idx, keys, vals, at)
        decreases slots.Length - idx
      {
        var next, k, v := NextEntry(idx);
        if next == -1 {
          VisitedAll(t, m, idx, keys, vals, at);
          break;
        }
        VisitedMore(t, idx, next - 1, keys, vals, at);
        at := at + [next - 1];
        idx := next;
        keys, vals := keys + [k], vals + [v.value];
      }
    }
  }
}
