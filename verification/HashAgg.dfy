// Grouping and aggregates: what each output row says about the rows of its group.

module HashAgg {
  import Pipeline
  import opened Shared

  datatype Scalar = Null | Int(i: int) | Dbl(d: real) | Text(s: string) | Bool(b: bool)

  // COUNT(*), COUNT(x), SUM, AVG, MIN, MAX, and a plain expression, whose first value is kept.
  datatype Fn = CountAll | Count | Sum | Avg | Min | Max | Plain

  // What the program makes of the bytes of a value where it takes them for another kind: a number to add, or
  // one of two values to compare. Nothing is known of these.
  datatype Raw = Raw(number: Scalar -> real, below: (Scalar, Scalar) -> bool, above: (Scalar, Scalar) -> bool)

  datatype Out<!Row> = Out(fn: Fn, arg: Row -> Scalar, raw: Raw)

  type Key = seq<Scalar>

  const MAX_GROUPS: nat := 4096

  // One accumulator.
  datatype Acc = Acc(cnt: int, sum: real, lo: Scalar, hi: Scalar, has: bool)

  const FRESH := Acc(0, 0.0, Null, Null, false)

  function StrLess(a: string, b: string): bool {
    if b == [] then false
    else if a == [] then true
    else if a[0] != b[0] then a[0] < b[0]
    else StrLess(a[1..], b[1..])
  }

  // The order MIN and MAX go by, on values of one kind.
  function Less(a: Scalar, b: Scalar): bool {
    match (a, b)
    case (Int(x), Int(y)) => x < y
    case (Dbl(x), Dbl(y)) => x < y
    case (Text(x), Text(y)) => StrLess(x, y)
    case (Bool(x), Bool(y)) => !x && y
    case _ => false
  }

  // Whether v is to take the place of cur in MIN and in MAX. A boolean never does.
  function Below(v: Scalar, cur: Scalar, raw: Raw): bool {
    if SameOrder(v, cur) then Less(v, cur) else !v.Bool? && raw.below(v, cur)
  }

  function Above(v: Scalar, cur: Scalar, raw: Raw): bool {
    if SameOrder(v, cur) then Less(cur, v) else !v.Bool? && raw.above(v, cur)
  }

  predicate SameOrder(a: Scalar, b: Scalar) {
    (a.Int? && b.Int?) || (a.Dbl? && b.Dbl?) || (a.Text? && b.Text?)
  }

  function Number(v: Scalar, raw: Raw): real {
    match v
    case Int(i) => i as real
    case Dbl(d) => d
    case _ => raw.number(v)
  }

  // One value into one accumulator. Rows with a null are counted, but for COUNT(x).
  function Step<Row>(a: Acc, o: Out<Row>, v: Scalar): Acc {
    match o.fn
    case CountAll => a.(cnt := a.cnt + 1)
    case Count => if v.Null? then a else a.(cnt := a.cnt + 1)
    case Plain => if a.has then a else a.(lo := v, has := true)
    case Sum => if v.Null? then a.(cnt := a.cnt + 1) else a.(cnt := a.cnt + 1, sum := a.sum + Number(v, o.raw))
    case Avg => if v.Null? then a.(cnt := a.cnt + 1) else a.(cnt := a.cnt + 1, sum := a.sum + Number(v, o.raw))
    case Min =>
      if v.Null? then a.(cnt := a.cnt + 1)
      else a.(cnt := a.cnt + 1, has := true, lo := if !a.has || Below(v, a.lo, o.raw) then v else a.lo)
    case Max =>
      if v.Null? then a.(cnt := a.cnt + 1)
      else a.(cnt := a.cnt + 1, has := true, hi := if !a.has || Above(v, a.hi, o.raw) then v else a.hi)
  }

  function Folded<Row>(o: Out<Row>, rows: seq<Row>): Acc {
    if rows == [] then FRESH else Step(Folded(o, rows[..|rows| - 1]), o, o.arg(rows[|rows| - 1]))
  }

  // What an output row shows.
  function Shown(fn: Fn, a: Acc): Scalar {
    match fn
    case CountAll => Int(a.cnt)
    case Count => Int(a.cnt)
    case Avg => Dbl(if a.cnt != 0 then a.sum / a.cnt as real else 0.0)
    case Sum => Dbl(a.sum)
    case Min => if a.has then a.lo else Null
    case Max => if a.has then a.hi else Null
    case Plain => a.lo
  }

  // ---- groups

  function Of<Row>(key: Row -> Key, rows: seq<Row>, k: Key): seq<Row> {
    if rows == [] then []
    else Of(key, rows[..|rows| - 1], k) + (if key(rows[|rows| - 1]) == k then [rows[|rows| - 1]] else [])
  }

  // Keys in the order they first appear, after those there from the start, up to the limit.
  function Keys<Row>(key: Row -> Key, start: seq<Key>, rows: seq<Row>): seq<Key> {
    if rows == [] then start
    else
      var ks := Keys(key, start, rows[..|rows| - 1]);
      var k := key(rows[|rows| - 1]);
      if k in ks || |ks| >= MAX_GROUPS then ks else ks + [k]
  }

  lemma OfMore<Row>(key: Row -> Key, rows: seq<Row>, r: Row, k: Key)
    ensures Of(key, rows + [r], k) == Of(key, rows, k) + (if key(r) == k then [r] else [])
  {
    assert (rows + [r])[..|rows|] == rows;
  }

  lemma KeysMore<Row>(key: Row -> Key, start: seq<Key>, rows: seq<Row>, r: Row)
    ensures var ks := Keys(key, start, rows);
            Keys(key, start, rows + [r]) == if key(r) in ks || |ks| >= MAX_GROUPS then ks else ks + [key(r)]
  {
    assert (rows + [r])[..|rows|] == rows;
  }

  lemma FoldedMore<Row>(o: Out<Row>, rows: seq<Row>, r: Row)
    ensures Folded(o, rows + [r]) == Step(Folded(o, rows), o, o.arg(r))
  {
    assert (rows + [r])[..|rows|] == rows;
  }

  ghost predicate Distinct(ks: seq<Key>) {
    forall i, j :: 0 <= i < j < |ks| ==> ks[i] != ks[j]
  }

  // ---- the operator

  // The accumulators stand for the rows seen.
  ghost predicate Tallied<Row>(key: Row -> Key, outs: seq<Out<Row>>, start: seq<Key>, seen: seq<Row>,
                              gkeys: seq<Key>, accs: seq<seq<Acc>>) {
    && gkeys == Keys(key, start, seen) && |accs| == |gkeys|
    && forall g {:trigger accs[g]} :: 0 <= g < |gkeys| ==> RowTallied(key, outs, seen, gkeys[g], accs[g])
  }

  ghost predicate RowTallied<Row>(key: Row -> Key, outs: seq<Out<Row>>, seen: seq<Row>, k: Key, accs: seq<Acc>) {
    |accs| == |outs| && forall o {:trigger accs[o]} :: 0 <= o < |outs| ==> accs[o] == Folded(outs[o], Of(key, seen, k))
  }

  function Fresh(n: nat): (r: seq<Acc>)
    ensures |r| == n && forall i :: 0 <= i < n ==> r[i] == FRESH
  {
    seq(n, i => FRESH)
  }

  function StepRow<Row>(outs: seq<Out<Row>>, accs: seq<Acc>, r: Row): (next: seq<Acc>)
    requires |accs| == |outs|
    ensures |next| == |outs| && forall o :: 0 <= o < |outs| ==> next[o] == Step(accs[o], outs[o], outs[o].arg(r))
  {
    seq(|outs|, o requires 0 <= o < |outs| => Step(accs[o], outs[o], outs[o].arg(r)))
  }

  // The groups after one more row.
  function AddTo<Row>(key: Row -> Key, outs: seq<Out<Row>>, gkeys: seq<Key>, accs: seq<seq<Acc>>, r: Row)
    : (n: (seq<Key>, seq<seq<Acc>>))
    requires |accs| == |gkeys| && forall g :: 0 <= g < |accs| ==> |accs[g]| == |outs|
  {
    if key(r) in gkeys then
      var g := First(gkeys, key(r));
      (gkeys, accs[g := StepRow(outs, accs[g], r)])
    else if |gkeys| >= MAX_GROUPS then (gkeys, accs)
    else (gkeys + [key(r)], accs + [StepRow(outs, Fresh(|outs|), r)])
  }

  function First(ks: seq<Key>, k: Key): (g: nat)
    requires k in ks
    ensures g < |ks| && ks[g] == k && k !in ks[..g]
  {
    if ks[0] == k then 0 else 1 + First(ks[1..], k)
  }

  lemma {:induction false} KeysDistinct<Row>(key: Row -> Key, start: seq<Key>, rows: seq<Row>)
    requires Distinct(start)
    ensures Distinct(Keys(key, start, rows))
  {
    if rows != [] { KeysDistinct(key, start, rows[..|rows| - 1]); }
  }

  // While there is room, a key without a group has no rows.
  lemma {:induction false} AbsentKey<Row>(key: Row -> Key, start: seq<Key>, rows: seq<Row>, k: Key)
    requires k !in Keys(key, start, rows) && |Keys(key, start, rows)| < MAX_GROUPS
    ensures Of(key, rows, k) == []
  {
    if rows != [] { AbsentKey(key, start, rows[..|rows| - 1], k); }
  }

  lemma RowTalliedMore<Row>(key: Row -> Key, outs: seq<Out<Row>>, seen: seq<Row>, k: Key, accs: seq<Acc>, r: Row)
    requires RowTallied(key, outs, seen, k, accs)
    ensures RowTallied(key, outs, seen + [r], k, if key(r) == k then StepRow(outs, accs, r) else accs)
  {
    OfMore(key, seen, r, k);
    assert Of(key, seen, k) + [] == Of(key, seen, k);
    var accs' := if key(r) == k then StepRow(outs, accs, r) else accs;
    forall o {:trigger accs'[o]} | 0 <= o < |outs| ensures accs'[o] == Folded(outs[o], Of(key, seen + [r], k)) {
      assert accs[o] == Folded(outs[o], Of(key, seen, k));
      if key(r) == k { FoldedMore(outs[o], Of(key, seen, k), r); }
    }
  }

  lemma TalliedMore<Row>(key: Row -> Key, outs: seq<Out<Row>>, start: seq<Key>, seen: seq<Row>,
                        gkeys: seq<Key>, accs: seq<seq<Acc>>, r: Row)
    requires Tallied(key, outs, start, seen, gkeys, accs) && Distinct(start)
    requires forall g :: 0 <= g < |accs| ==> |accs[g]| == |outs|
    ensures var n := AddTo(key, outs, gkeys, accs, r); Tallied(key, outs, start, seen + [r], n.0, n.1)
  {
    var k := key(r);
    var n := AddTo(key, outs, gkeys, accs, r);
    KeysMore(key, start, seen, r);
    KeysDistinct(key, start, seen);
    forall g {:trigger n.1[g]} | 0 <= g < |n.0| ensures RowTallied(key, outs, seen + [r], n.0[g], n.1[g]) {
      if g < |gkeys| {
        assert RowTallied(key, outs, seen, gkeys[g], accs[g]);
        RowTalliedMore(key, outs, seen, gkeys[g], accs[g], r);
      } else {
        AbsentKey(key, start, seen, k);
        assert RowTallied(key, outs, seen, k, Fresh(|outs|));
        RowTalliedMore(key, outs, seen, k, Fresh(|outs|), r);
      }
    }
  }

  class Agg<Row> {
    const key: Row -> Key
    const outs: seq<Out<Row>>
    const start: seq<Key>            // one group with no keys when there is nothing to group by
    var gkeys: seq<Key>
    var accs: seq<seq<Acc>>
    var emitPos: nat
    ghost var seen: seq<Row>

    ghost predicate Valid()
      reads this
    {
      Tallied(key, outs, start, seen, gkeys, accs) && Distinct(start) && emitPos <= |gkeys|
    }

    constructor (key: Row -> Key, outs: seq<Out<Row>>, scalar: bool)
      ensures Valid() && seen == [] && emitPos == 0 && this.key == key && this.outs == outs
      ensures start == if scalar then [[]] else []
    {
      this.key, this.outs := key, outs;
      start := if scalar then [[]] else [];
      gkeys := if scalar then [[]] else [];
      accs := if scalar then [Fresh(|outs|)] else [];
      emitPos, seen := 0, [];
    }

    // The group of a key, made if need be; -1 when there are too many.
    method FindGroup(k: Key) returns (g: int)
      requires |accs| == |gkeys|
      modifies this`gkeys, this`accs
      ensures k in old(gkeys) ==> 0 <= g < |gkeys| && gkeys == old(gkeys) && accs == old(accs) && gkeys[g] == k
      ensures k in old(gkeys) ==> k !in gkeys[..g]
      ensures k !in old(gkeys) && |old(gkeys)| >= MAX_GROUPS ==> g == -1 && gkeys == old(gkeys) && accs == old(accs)
      ensures k !in old(gkeys) && |old(gkeys)| < MAX_GROUPS ==>
                g == |old(gkeys)| && gkeys == old(gkeys) + [k] && accs == old(accs) + [Fresh(|outs|)]
    {
      for i := 0 to |gkeys|
        invariant k !in gkeys[..i] && gkeys == old(gkeys) && accs == old(accs)
      {
        if gkeys[i] == k { return i; }
      }
      assert gkeys[..|gkeys|] == gkeys;
      if |gkeys| >= MAX_GROUPS { return -1; }
      g := |gkeys|;
      gkeys := gkeys + [k];
      accs := accs + [Fresh(|outs|)];
    }

    // The loop over the output expressions.
    method StepAll(row: seq<Acc>, r: Row) returns (next: seq<Acc>)
      requires |row| == |outs|
      ensures next == StepRow(outs, row, r)
    {
      next := [];
      for o := 0 to |outs|
        invariant next == StepRow(outs, row, r)[..o]
      {
        next := next + [Step(row[o], outs[o], outs[o].arg(r))];
      }
    }

    // One input row.
    method Add(r: Row)
      requires Valid() && emitPos == 0
      modifies this`gkeys, this`accs, this`seen
      ensures Valid() && seen == old(seen) + [r]
    {
      forall g | 0 <= g < |accs| ensures |accs[g]| == |outs| { assert RowTallied(key, outs, seen, gkeys[g], accs[g]); }
      TalliedMore(key, outs, start, seen, gkeys, accs, r);
      ghost var n := AddTo(key, outs, gkeys, accs, r);
      var g := FindGroup(key(r));
      if g >= 0 {
        var next := StepAll(accs[g], r);
        accs := accs[g := next];
      }
      assert gkeys == n.0 && accs == n.1;
      seen := seen + [r];
    }

    // The rows of one batch.
    method AddAll(batch: seq<Row>)
      requires Valid() && emitPos == 0
      modifies this`gkeys, this`accs, this`seen
      ensures Valid() && seen == old(seen) + batch
    {
      for i := 0 to |batch|
        invariant Valid() && emitPos == 0 && seen == old(seen) + batch[..i]
      {
        Add(batch[i]);
        assert batch[..i + 1] == batch[..i] + [batch[i]];
      }
      assert batch[..|batch|] == batch;
    }

    // Draining the child, whose batches stop at the first empty one.
    method Build(batches: seq<seq<Row>>)
      requires Valid() && emitPos == 0 && seen == []
      modifies this`gkeys, this`accs, this`seen
      ensures Valid() && seen == Pipeline.Driven(batches)
    {
      var b := 0;
      assert batches[0..] == batches;
      while b < |batches| && |batches[b]| > 0
        invariant b <= |batches| && Valid() && emitPos == 0
        invariant Pipeline.Driven(batches) == seen + Pipeline.Driven(batches[b..])
      {
        DrivenStep(batches, b, seen);
        AddAll(batches[b]);
        b := b + 1;
      }
    }

    // One row for each group, in the order of the groups; then the end.
    method Next() returns (row: Option<seq<Scalar>>)
      requires Valid()
      modifies this`emitPos
      ensures Valid()
      ensures if old(emitPos) == |gkeys| then row == None && emitPos == old(emitPos)
              else row == Some(OutRow(outs, Of(key, seen, gkeys[old(emitPos)]))) && emitPos == old(emitPos) + 1
    {
      if emitPos >= |gkeys| { return None; }
      var g := emitPos;
      emitPos := emitPos + 1;
      assert RowTallied(key, outs, seen, gkeys[g], accs[g]);
      var vals: seq<Scalar> := [];
      for o := 0 to |outs|
        invariant vals == OutRow(outs, Of(key, seen, gkeys[g]))[..o]
      {
        vals := vals + [Shown(outs[o].fn, accs[g][o])];
      }
      assert vals == OutRow(outs, Of(key, seen, gkeys[g]));
      return Some(vals);
    }
  }

  lemma DrivenStep<T>(bs: seq<seq<T>>, b: nat, done: seq<T>)
    requires b < |bs| && bs[b] != [] && Pipeline.Driven(bs) == done + Pipeline.Driven(bs[b..])
    ensures Pipeline.Driven(bs) == done + bs[b] + Pipeline.Driven(bs[b + 1..])
  {
    assert bs[b..][1..] == bs[b + 1..];
    assert done + (bs[b] + Pipeline.Driven(bs[b + 1..])) == done + bs[b] + Pipeline.Driven(bs[b + 1..]);
  }

  function OutRow<Row>(outs: seq<Out<Row>>, rows: seq<Row>): (r: seq<Scalar>)
    ensures |r| == |outs| && forall o :: 0 <= o < |outs| ==> r[o] == Shown(outs[o].fn, Folded(outs[o], rows))
  {
    seq(|outs|, o requires 0 <= o < |outs| => Shown(outs[o].fn, Folded(outs[o], rows)))
  }

  // ---- what the aggregates mean

  function Args<Row>(o: Out<Row>, rows: seq<Row>): (vs: seq<Scalar>)
    ensures |vs| == |rows| && forall i :: 0 <= i < |rows| ==> vs[i] == o.arg(rows[i])
  {
    seq(|rows|, i requires 0 <= i < |rows| => o.arg(rows[i]))
  }

  function NonNulls(vs: seq<Scalar>): nat {
    if vs == [] then 0 else NonNulls(vs[..|vs| - 1]) + (if vs[|vs| - 1].Null? then 0 else 1)
  }

  function Total(vs: seq<Scalar>, raw: Raw): real {
    if vs == [] then 0.0
    else Total(vs[..|vs| - 1], raw) + (if vs[|vs| - 1].Null? then 0.0 else Number(vs[|vs| - 1], raw))
  }

  lemma ArgsInit<Row>(o: Out<Row>, rows: seq<Row>)
    requires rows != []
    ensures Args(o, rows)[..|rows| - 1] == Args(o, rows[..|rows| - 1])
  {
  }

  lemma {:induction false} FoldedCounts<Row>(o: Out<Row>, rows: seq<Row>)
    ensures var a := Folded(o, rows);
            && (o.fn == Count ==> a.cnt == NonNulls(Args(o, rows)))
            && (o.fn != Count && o.fn != Plain ==> a.cnt == |rows|)
            && (o.fn == Sum || o.fn == Avg ==> a.sum == Total(Args(o, rows), o.raw))
            && (o.fn == Min || o.fn == Max ==> (a.has <==> NonNulls(Args(o, rows)) > 0))
  {
    if rows != [] {
      FoldedCounts(o, rows[..|rows| - 1]);
      ArgsInit(o, rows);
    }
  }

  lemma CountsRight<Row>(o: Out<Row>, rows: seq<Row>)
    ensures o.fn == CountAll ==> Shown(o.fn, Folded(o, rows)) == Int(|rows|)
    ensures o.fn == Count ==> Shown(o.fn, Folded(o, rows)) == Int(NonNulls(Args(o, rows)))
    ensures o.fn == Sum ==> Shown(o.fn, Folded(o, rows)) == Dbl(Total(Args(o, rows), o.raw))
  {
    FoldedCounts(o, rows);
  }

  lemma {:induction false} NonNullBound(vs: seq<Scalar>)
    ensures NonNulls(vs) <= |vs|
  {
    if vs != [] { NonNullBound(vs[..|vs| - 1]); }
  }

  lemma Quotients(t: real, m: real, n: real)
    requires 0.0 < m <= n
    ensures t / n == t / m <==> m == n || t == 0.0
  {
    if t / n == t / m && m != n {
      assert t == t / n * n == t / m * m;
      var q := t / n;
      assert q * n == q * m;
      assert q * (n - m) == 0.0;
      assert q == 0.0;
    }
  }

  // AVG divides by all rows of the group, so it is the mean of the values exactly when no value is null or
  // they add up to zero; where all are null it shows zero.
  lemma AverageRight<Row>(o: Out<Row>, rows: seq<Row>)
    requires o.fn == Avg
    ensures var vs := Args(o, rows);
            if NonNulls(vs) == 0 then Shown(Avg, Folded(o, rows)) == Dbl(0.0)
            else Shown(Avg, Folded(o, rows)) == Dbl(Total(vs, o.raw) / NonNulls(vs) as real)
                 <==> NonNulls(vs) == |rows| || Total(vs, o.raw) == 0.0
  {
    var vs := Args(o, rows);
    FoldedCounts(o, rows);
    NonNullBound(vs);
    if NonNulls(vs) == 0 {
      NoTotal(vs, o.raw);
    } else {
      AverageShown(Folded(o, rows), Total(vs, o.raw), NonNulls(vs), |rows|);
    }
  }

  lemma AverageShown(a: Acc, total: real, m: nat, n: nat)
    requires a.cnt == n && a.sum == total && 0 < m <= n
    ensures Shown(Avg, a) == Dbl(total / m as real) <==> m == n || total == 0.0
  {
    Quotients(total, m as real, n as real);
  }

  // One row with 1 and one with a null: AVG shows a half.
  lemma AverageMisses(raw: Raw)
    ensures var o: Out<Scalar> := Out(Avg, (v: Scalar) => v, raw);
            Shown(Avg, Folded(o, [Int(1), Null])) == Dbl(0.5) && NonNulls(Args(o, [Int(1), Null])) == 1
  {
    var o: Out<Scalar> := Out(Avg, (v: Scalar) => v, raw);
    var vs := [Int(1), Null];
    assert vs[..1] == [Int(1)] && [Int(1)][..0] == [] && Args(o, vs) == vs;
    assert Folded(o, [Int(1)]) == Step(FRESH, o, Int(1));
  }

  lemma {:induction false} NoTotal(vs: seq<Scalar>, raw: Raw)
    requires NonNulls(vs) == 0
    ensures Total(vs, raw) == 0.0
  {
    if vs != [] { NoTotal(vs[..|vs| - 1], raw); }
  }

  // ---- the order of MIN and MAX

  lemma {:induction false} StrLessTrans(a: string, b: string, c: string)
    requires StrLess(a, b) && StrLess(b, c)
    ensures StrLess(a, c)
  {
    if a != [] && a[0] == b[0] == c[0] { StrLessTrans(a[1..], b[1..], c[1..]); }
  }

  // Of two texts exactly one is less, unless they are equal.
  lemma {:induction false} StrLessTotal(a: string, b: string)
    ensures a == b <==> !StrLess(a, b) && !StrLess(b, a)
    ensures !(StrLess(a, b) && StrLess(b, a))
  {
    if a != [] && b != [] && a[0] == b[0] {
      StrLessTotal(a[1..], b[1..]);
      assert a == [a[0]] + a[1..] && b == [b[0]] + b[1..];
    }
  }

  // On values of one kind Less is a strict total order.
  lemma LessOrders(a: Scalar, b: Scalar, c: Scalar)
    ensures Less(a, b) && Less(b, c) ==> Less(a, c)
    ensures !(Less(a, b) && Less(b, a))
    ensures SameOrder(a, b) || (a.Bool? && b.Bool?) ==> (a == b <==> !Less(a, b) && !Less(b, a))
  {
    if a.Text? && b.Text? {
      StrLessTotal(a.s, b.s);
      if c.Text? && Less(a, b) && Less(b, c) { StrLessTrans(a.s, b.s, c.s); }
    }
  }

  // Numbers of one kind or texts, and nulls.
  predicate Comparable(vs: seq<Scalar>) {
    || (forall i :: 0 <= i < |vs| ==> vs[i].Null? || vs[i].Int?)
    || (forall i :: 0 <= i < |vs| ==> vs[i].Null? || vs[i].Dbl?)
    || (forall i :: 0 <= i < |vs| ==> vs[i].Null? || vs[i].Text?)
  }

  // lo is among the values and none is less; nothing at all when all are null.
  ghost predicate IsLeast(v: Scalar, vs: seq<Scalar>) {
    if forall i :: 0 <= i < |vs| ==> vs[i].Null? then v.Null?
    else !v.Null? && v in vs && forall i :: 0 <= i < |vs| ==> !Less(vs[i], v)
  }

  ghost predicate IsGreatest(v: Scalar, vs: seq<Scalar>) {
    if forall i :: 0 <= i < |vs| ==> vs[i].Null? then v.Null?
    else !v.Null? && v in vs && forall i :: 0 <= i < |vs| ==> !Less(v, vs[i])
  }

  // One of the values that are not null; nothing at all when all are.
  ghost predicate Among(v: Scalar, vs: seq<Scalar>) {
    if forall i :: 0 <= i < |vs| ==> vs[i].Null? then v.Null? else !v.Null? && v in vs
  }

  lemma AmongMore(vs: seq<Scalar>, v: Scalar, x: Scalar, y: Scalar)
    requires Among(x, vs) && (y == x || (y == v && !v.Null?)) && (x.Null? && !v.Null? ==> y == v)
    ensures Among(y, vs + [v])
  {
    var all := vs + [v];
    assert forall i :: 0 <= i < |vs| ==> all[i] == vs[i];
    assert all[|vs|] == v;
    if x in vs {
      var i :| 0 <= i < |vs| && vs[i] == x;
      assert all[i] == x;
    }
  }

  lemma LeastMore(vs: seq<Scalar>, v: Scalar, x: Scalar, raw: Raw)
    requires Among(x, vs)
    ensures var y := if v.Null? then x else if x.Null? || Below(v, x, raw) then v else x;
            Among(y, vs + [v]) && (Comparable(vs + [v]) && IsLeast(x, vs) ==> IsLeast(y, vs + [v]))
  {
    var all := vs + [v];
    var y := if v.Null? then x else if x.Null? || Below(v, x, raw) then v else x;
    AmongMore(vs, v, x, y);
    assert forall i :: 0 <= i < |vs| ==> all[i] == vs[i];
    assert all[|vs|] == v;
    LessOrders(v, v, v);
    forall i | 0 <= i < |vs| ensures Less(v, x) && Less(vs[i], v) ==> Less(vs[i], x) { LessOrders(vs[i], v, x); }
    if x in vs {
      var i :| 0 <= i < |vs| && vs[i] == x;
      assert all[i] == x;
    }
  }

  lemma ComparableInit(vs: seq<Scalar>, v: Scalar)
    ensures Comparable(vs + [v]) ==> Comparable(vs)
  {
    var all := vs + [v];
    assert forall i :: 0 <= i < |vs| ==> all[i] == vs[i];
  }

  lemma NoneShown()
    ensures Among(Null, []) && IsLeast(Null, []) && IsGreatest(Null, [])
  {
  }

  // MIN is among the arguments, whatever they are, and on arguments of one kind none is less.
  lemma {:induction false} LeastRight<Row>(o: Out<Row>, rows: seq<Row>)
    requires o.fn == Min
    ensures Among(Shown(Min, Folded(o, rows)), Args(o, rows))
    ensures Comparable(Args(o, rows)) ==> IsLeast(Shown(Min, Folded(o, rows)), Args(o, rows))
    ensures Folded(o, rows).has <==> !Shown(Min, Folded(o, rows)).Null?
  {
    hide Comparable, Among, IsLeast, Below, Args;
    if rows == [] {
      NoneShown();
      assert Args(o, rows) == [];
    } else {
      var vs, n := Args(o, rows), |rows| - 1;
      ArgsInit(o, rows);
      assert vs == vs[..n] + [vs[n]];
      ComparableInit(vs[..n], vs[n]);
      LeastRight(o, rows[..n]);
      LeastMore(vs[..n], vs[n], Shown(Min, Folded(o, rows[..n])), o.raw);
    }
  }

  lemma GreatestMore(vs: seq<Scalar>, v: Scalar, x: Scalar, raw: Raw)
    requires Among(x, vs)
    ensures var y := if v.Null? then x else if x.Null? || Above(v, x, raw) then v else x;
            Among(y, vs + [v]) && (Comparable(vs + [v]) && IsGreatest(x, vs) ==> IsGreatest(y, vs + [v]))
  {
    var all := vs + [v];
    var y := if v.Null? then x else if x.Null? || Above(v, x, raw) then v else x;
    AmongMore(vs, v, x, y);
    assert forall i :: 0 <= i < |vs| ==> all[i] == vs[i];
    assert all[|vs|] == v;
    LessOrders(v, v, v);
    forall i | 0 <= i < |vs| ensures Less(x, v) && Less(v, vs[i]) ==> Less(x, vs[i]) { LessOrders(x, v, vs[i]); }
    if x in vs {
      var i :| 0 <= i < |vs| && vs[i] == x;
      assert all[i] == x;
    }
  }

  // MAX is among the arguments, whatever they are, and on arguments of one kind none is greater.
  lemma {:induction false} GreatestRight<Row>(o: Out<Row>, rows: seq<Row>)
    requires o.fn == Max
    ensures Among(Shown(Max, Folded(o, rows)), Args(o, rows))
    ensures Comparable(Args(o, rows)) ==> IsGreatest(Shown(Max, Folded(o, rows)), Args(o, rows))
    ensures Folded(o, rows).has <==> !Shown(Max, Folded(o, rows)).Null?
  {
    hide Comparable, Among, IsGreatest, Above, Args;
    if rows == [] {
      NoneShown();
      assert Args(o, rows) == [];
    } else {
      var vs, n := Args(o, rows), |rows| - 1;
      ArgsInit(o, rows);
      assert vs == vs[..n] + [vs[n]];
      ComparableInit(vs[..n], vs[n]);
      GreatestRight(o, rows[..n]);
      GreatestMore(vs[..n], vs[n], Shown(Max, Folded(o, rows[..n])), o.raw);
    }
  }

  // ---- booleans, which MIN and MAX do not compare

  predicate Booleans(vs: seq<Scalar>) {
    forall i :: 0 <= i < |vs| ==> vs[i].Null? || vs[i].Bool?
  }

  // The first value that is not null.
  ghost function FirstNonNull(vs: seq<Scalar>): (v: Scalar)
    ensures Among(v, vs)
  {
    if vs == [] then Null
    else
      var x, last := FirstNonNull(vs[..|vs| - 1]), vs[|vs| - 1];
      var y := if x.Null? then last else x;
      assert vs == vs[..|vs| - 1] + [last];
      AmongMore(vs[..|vs| - 1], last, x, y);
      y
  }

  lemma {:induction false} FirstShown<Row>(o: Out<Row>, rows: seq<Row>)
    requires (o.fn == Min || o.fn == Max) && Booleans(Args(o, rows))
    ensures Shown(o.fn, Folded(o, rows)) == FirstNonNull(Args(o, rows))
    ensures Folded(o, rows).has <==> !Shown(o.fn, Folded(o, rows)).Null?
  {
    if rows != [] {
      var vs, n := Args(o, rows), |rows| - 1;
      ArgsInit(o, rows);
      assert forall i :: 0 <= i < n ==> vs[..n][i] == vs[i];
      FirstShown(o, rows[..n]);
    }
  }

  // Over booleans MIN and MAX show the first, so MIN is the least exactly if the first is false or none is, and
  // MAX the greatest exactly if the first is true or none is.
  lemma BooleansRight<Row>(o: Out<Row>, rows: seq<Row>)
    requires Booleans(Args(o, rows))
    ensures var vs := Args(o, rows);
            && (o.fn == Min ==> (IsLeast(Shown(Min, Folded(o, rows)), vs)
                                 <==> FirstNonNull(vs) == Bool(false) || Bool(false) !in vs))
            && (o.fn == Max ==> (IsGreatest(Shown(Max, Folded(o, rows)), vs)
                                 <==> FirstNonNull(vs) == Bool(true) || Bool(true) !in vs))
  {
    if o.fn == Min || o.fn == Max {
      FirstShown(o, rows);
      BooleanEnds(Args(o, rows), FirstNonNull(Args(o, rows)));
    }
  }

  lemma BooleanEnds(vs: seq<Scalar>, v: Scalar)
    requires Booleans(vs) && Among(v, vs)
    ensures IsLeast(v, vs) <==> v == Bool(false) || Bool(false) !in vs
    ensures IsGreatest(v, vs) <==> v == Bool(true) || Bool(true) !in vs
  {
    if Bool(false) in vs {
      var i :| 0 <= i < |vs| && vs[i] == Bool(false);
      assert !vs[i].Null? && Less(vs[i], Bool(true));
    }
    if Bool(true) in vs {
      var i :| 0 <= i < |vs| && vs[i] == Bool(true);
      assert !vs[i].Null? && Less(Bool(false), vs[i]);
    }
  }

  // A plain expression shows its value in the first row of the group.
  lemma {:induction false} FirstRight<Row>(o: Out<Row>, rows: seq<Row>)
    requires o.fn == Plain && rows != []
    ensures Folded(o, rows).has && Shown(Plain, Folded(o, rows)) == o.arg(rows[0])
  {
    if |rows| > 1 {
      FirstRight(o, rows[..|rows| - 1]);
    } else {
      assert rows[..0] == [];
    }
  }

  // ---- the groups cover the input

  function SizeSum<Row>(key: Row -> Key, ks: seq<Key>, rows: seq<Row>): nat {
    if ks == [] then 0 else SizeSum(key, ks[..|ks| - 1], rows) + |Of(key, rows, ks[|ks| - 1])|
  }

  // Rows whose key has a group.
  function Covered<Row>(key: Row -> Key, ks: seq<Key>, rows: seq<Row>): nat {
    if rows == [] then 0
    else Covered(key, ks, rows[..|rows| - 1]) + (if key(rows[|rows| - 1]) in ks then 1 else 0)
  }

  lemma {:induction false} SizeMore<Row>(key: Row -> Key, ks: seq<Key>, rows: seq<Row>, r: Row)
    requires Distinct(ks)
    ensures SizeSum(key, ks, rows + [r]) == SizeSum(key, ks, rows) + (if key(r) in ks then 1 else 0)
  {
    if ks != [] {
      var n := |ks| - 1;
      SizeMore(key, ks[..n], rows, r);
      OfMore(key, rows, r, ks[n]);
      assert ks == ks[..n] + [ks[n]];
      if key(r) in ks[..n] { assert key(r) != ks[n]; }
    }
  }

  lemma {:induction false} SizeNone<Row>(key: Row -> Key, ks: seq<Key>, rows: seq<Row>)
    requires rows == []
    ensures SizeSum(key, ks, rows) == 0
  {
    if ks != [] { SizeNone(key, ks[..|ks| - 1], rows); }
  }

  lemma {:induction false} SizesCover<Row>(key: Row -> Key, ks: seq<Key>, rows: seq<Row>)
    requires Distinct(ks)
    ensures SizeSum(key, ks, rows) == Covered(key, ks, rows)
  {
    if rows == [] {
      SizeNone(key, ks, rows);
    } else {
      var n := |rows| - 1;
      SizesCover(key, ks, rows[..n]);
      SizeMore(key, ks, rows[..n], rows[n]);
      assert rows == rows[..n] + [rows[n]];
    }
  }

  lemma {:induction false} CoveredAll<Row>(key: Row -> Key, ks: seq<Key>, rows: seq<Row>)
    ensures Covered(key, ks, rows) <= |rows|
    ensures Covered(key, ks, rows) == |rows| <==> forall i :: 0 <= i < |rows| ==> key(rows[i]) in ks
  {
    if rows != [] {
      var n := |rows| - 1;
      CoveredAll(key, ks, rows[..n]);
      if forall i :: 0 <= i < |rows| ==> key(rows[i]) in ks {
        assert forall i :: 0 <= i < n ==> rows[..n][i] == rows[i];
      } else if key(rows[n]) in ks {
        var i :| 0 <= i < |rows| && key(rows[i]) !in ks;
        assert rows[..n][i] == rows[i];
      }
    }
  }

  lemma {:induction false} KeysSeen<Row>(key: Row -> Key, start: seq<Key>, rows: seq<Row>)
    ensures start <= Keys(key, start, rows)
    ensures |Keys(key, start, rows)| < MAX_GROUPS ==> forall i :: 0 <= i < |rows| ==>
        key(rows[i]) in Keys(key, start, rows)
  {
    if rows != [] {
      var n := |rows| - 1;
      KeysSeen(key, start, rows[..n]);
      assert forall i :: 0 <= i < n ==> rows[..n][i] == rows[i];
    }
  }

  lemma {:induction false} KeysBound<Row>(key: Row -> Key, start: seq<Key>, rows: seq<Row>)
    requires |start| <= MAX_GROUPS
    ensures |Keys(key, start, rows)| <= MAX_GROUPS
  {
    if rows != [] { KeysBound(key, start, rows[..|rows| - 1]); }
  }

  // Row i is the first with key k.
  ghost predicate FirstAt<Row>(key: Row -> Key, rows: seq<Row>, i: nat, k: Key) {
    i < |rows| && key(rows[i]) == k && forall j :: 0 <= j < i ==> key(rows[j]) != k
  }

  ghost predicate HasFirst<Row>(key: Row -> Key, rows: seq<Row>, k: Key) {
    exists i: nat :: FirstAt(key, rows, i, k)
  }

  lemma FirstMore<Row>(key: Row -> Key, rows: seq<Row>, r: Row, i: nat, k: Key)
    ensures i < |rows| ==> (FirstAt(key, rows + [r], i, k) <==> FirstAt(key, rows, i, k))
    ensures FirstAt(key, rows + [r], |rows|, k) <==> key(r) == k && forall j :: 0 <= j < |rows| ==> key(rows[j]) != k
  {
    var all := rows + [r];
    assert all[..|rows|] == rows && forall j :: 0 <= j < |rows| ==> all[j] == rows[j];
  }

  // A group made while draining has a first row; the groups stand in the order of these rows; and a row
  // without a group comes after them all.
  ghost predicate Appeared<Row>(key: Row -> Key, start: seq<Key>, rows: seq<Row>, ks: seq<Key>) {
    && (forall g {:trigger ks[g]} :: |start| <= g < |ks| ==> HasFirst(key, rows, ks[g]))
    && (forall g, h, i: nat, j: nat {:trigger FirstAt(key, rows, i, ks[g]), FirstAt(key, rows, j, ks[h])} ::
          |start| <= g < h < |ks| && FirstAt(key, rows, i, ks[g]) && FirstAt(key, rows, j, ks[h]) ==> i < j)
    && (forall g, i: nat, j {:trigger FirstAt(key, rows, i, ks[g]), rows[j]} ::
          |start| <= g < |ks| && FirstAt(key, rows, i, ks[g]) && 0 <= j < |rows| && key(rows[j]) !in ks ==> i < j)
  }

  // The first row of a group that is there does not change.
  lemma FirstStays<Row>(key: Row -> Key, start: seq<Key>, rows: seq<Row>, r: Row, ks: seq<Key>, g: nat, i: nat)
    requires Appeared(key, start, rows, ks) && |start| <= g < |ks| && FirstAt(key, rows + [r], i, ks[g])
    ensures FirstAt(key, rows, i, ks[g])
  {
    var i0: nat :| FirstAt(key, rows, i0, ks[g]);
    FirstMore(key, rows, r, i0, ks[g]);
    FirstMore(key, rows, r, i, ks[g]);
  }

  lemma OldGroups<Row>(key: Row -> Key, start: seq<Key>, rows: seq<Row>, r: Row, ks: seq<Key>)
    requires Appeared(key, start, rows, ks)
    ensures Appeared(key, start, rows + [r], ks)
  {
    var all := rows + [r];
    forall g {:trigger ks[g]} | |start| <= g < |ks| ensures HasFirst(key, all, ks[g]) {
      var i: nat :| FirstAt(key, rows, i, ks[g]);
      FirstMore(key, rows, r, i, ks[g]);
    }
    forall g, h, i: nat, j: nat | |start| <= g < h < |ks| && FirstAt(key, all, i, ks[g]) && FirstAt(key, all, j, ks[h])
      ensures i < j
    {
      FirstStays(key, start, rows, r, ks, g, i);
      FirstStays(key, start, rows, r, ks, h, j);
    }
    forall g, i: nat, j | |start| <= g < |ks| && FirstAt(key, all, i, ks[g]) && 0 <= j < |all| && key(all[j]) !in ks
      ensures i < j
    {
      FirstStays(key, start, rows, r, ks, g, i);
    }
  }

  lemma NewGroup<Row>(key: Row -> Key, start: seq<Key>, rows: seq<Row>, r: Row, ks: seq<Key>)
    requires Appeared(key, start, rows, ks) && |start| <= |ks| && key(r) !in ks
    requires forall j :: 0 <= j < |rows| ==> key(rows[j]) in ks
    ensures Appeared(key, start, rows + [r], ks + [key(r)])
  {
    var all, ks' := rows + [r], ks + [key(r)];
    OldGroups(key, start, rows, r, ks);
    FirstMore(key, rows, r, |rows|, key(r));
    forall g {:trigger ks'[g]} | |start| <= g < |ks'| ensures HasFirst(key, all, ks'[g]) {
      if g < |ks| { assert ks'[g] == ks[g]; } else { assert FirstAt(key, all, |rows|, ks'[g]); }
    }
    forall g, h, i: nat, j: nat | |start| <= g < h < |ks'| && FirstAt(key, all, i, ks'[g]) &&
        FirstAt(key, all, j, ks'[h])
      ensures i < j
    {
      FirstStays(key, start, rows, r, ks, g, i);
      if h < |ks| { assert ks'[h] == ks[h]; } else { FirstMore(key, rows, r, j, key(r)); }
    }
    forall j | 0 <= j < |all| ensures key(all[j]) in ks' {
      if j < |rows| { assert all[j] == rows[j]; } else { assert ks'[|ks|] == key(r); }
    }
  }

  lemma {:induction false} KeysAppear<Row>(key: Row -> Key, start: seq<Key>, rows: seq<Row>)
    ensures Appeared(key, start, rows, Keys(key, start, rows))
  {
    if rows != [] {
      var n := |rows| - 1;
      var ks := Keys(key, start, rows[..n]);
      KeysAppear(key, start, rows[..n]);
      KeysSeen(key, start, rows[..n]);
      assert rows == rows[..n] + [rows[n]];
      if key(rows[n]) in ks || |ks| >= MAX_GROUPS {
        OldGroups(key, start, rows[..n], rows[n], ks);
      } else {
        NewGroup(key, start, rows[..n], rows[n], ks);
      }
    }
  }

  // The keys there are.
  ghost function AllKeys<Row>(key: Row -> Key, start: seq<Key>, rows: seq<Row>): set<Key> {
    (set k | k in start) + (set i | 0 <= i < |rows| :: key(rows[i]))
  }

  lemma {:induction false} SetOfDistinct(ks: seq<Key>)
    requires Distinct(ks)
    ensures |set k | k in ks| == |ks|
  {
    if ks != [] {
      var n := |ks| - 1;
      SetOfDistinct(ks[..n]);
      assert ks == ks[..n] + [ks[n]];
      assert (set k | k in ks) == (set k | k in ks[..n]) + {ks[n]};
      assert ks[n] !in ks[..n];
    }
  }

  lemma {:induction false} SetMonotone(a: set<Key>, b: set<Key>)
    requires a <= b
    ensures |a| <= |b|
  {
    if a != {} {
      var x :| x in a;
      SetMonotone(a - {x}, b - {x});
    }
  }

  // Every row has a group if and only if there are no more keys than groups.
  lemma RoomForAll<Row>(key: Row -> Key, start: seq<Key>, rows: seq<Row>)
    requires Distinct(start) && |start| <= MAX_GROUPS
    ensures var ks := Keys(key, start, rows);
            (forall i :: 0 <= i < |rows| ==> key(rows[i]) in ks) <==> |AllKeys(key, start, rows)| <= MAX_GROUPS
  {
    hide Keys;
    var ks, all := Keys(key, start, rows), AllKeys(key, start, rows);
    var made := set k | k in ks;
    KeysDistinct(key, start, rows);
    KeysBound(key, start, rows);
    KeysSeen(key, start, rows);
    SetOfDistinct(ks);
    if i :| 0 <= i < |rows| && key(rows[i]) !in ks {
      KeysFrom(key, start, rows);
      assert key(rows[i]) in all;
      SetMonotone(made + {key(rows[i])}, all);
    } else {
      assert forall k :: k in start ==> k in ks by { assert ks[..|start|] == start; }
      SetMonotone(all, made);
    }
  }

  lemma KeysFrom<Row>(key: Row -> Key, start: seq<Key>, rows: seq<Row>)
    ensures forall k :: k in Keys(key, start, rows) ==> k in AllKeys(key, start, rows)
  {
    var ks := Keys(key, start, rows);
    KeysAppear(key, start, rows);
    KeysSeen(key, start, rows);
    forall k | k in ks ensures k in AllKeys(key, start, rows) {
      var g :| 0 <= g < |ks| && ks[g] == k;
      if g >= |start| {
        var i: nat :| FirstAt(key, rows, i, ks[g]);
      } else {
        assert start[g] == k;
      }
    }
  }

  // The groups are distinct keys of the input, in the order of their first rows, after those there from the
  // start. Their sizes add up to the number of input rows exactly when every row has a group, which is when
  // there are at most as many keys as groups; a row without one comes after the first rows of all groups.
  lemma GroupsRight<Row>(key: Row -> Key, start: seq<Key>, rows: seq<Row>)
    requires Distinct(start) && |start| <= MAX_GROUPS
    ensures var ks := Keys(key, start, rows);
            && Distinct(ks) && start <= ks && |ks| <= MAX_GROUPS && Appeared(key, start, rows, ks)
            && (SizeSum(key, ks, rows) == |rows| <==> forall i :: 0 <= i < |rows| ==> key(rows[i]) in ks)
            && (SizeSum(key, ks, rows) == |rows| <==> |AllKeys(key, start, rows)| <= 4096)
  {
    var ks := Keys(key, start, rows);
    KeysDistinct(key, start, rows);
    KeysBound(key, start, rows);
    KeysAppear(key, start, rows);
    SizesCover(key, ks, rows);
    CoveredAll(key, ks, rows);
    KeysSeen(key, start, rows);
    RoomForAll(key, start, rows);
  }
}
