// Pull operators over batches: filter, limit, and the driver that drains them.

module Pipeline {
  import opened Shared

  // What pulling a batch returns: rows, or the end.
  datatype Pulled<+T> = Rows(rows: seq<T>) | End

  function Flat<T>(bs: seq<seq<T>>): seq<T> {
    if bs == [] then [] else bs[0] + Flat(bs[1..])
  }

  function Kept<T>(p: T -> bool, rows: seq<T>): seq<T> {
    if rows == [] then [] else (if p(rows[0]) then [rows[0]] else []) + Kept(p, rows[1..])
  }

  // The filtered batches that are not empty.
  function KeptBatches<T>(p: T -> bool, bs: seq<seq<T>>): (r: seq<seq<T>>)
    ensures forall i :: 0 <= i < |r| ==> r[i] != []
  {
    if bs == [] then []
    else
      var k := Kept(p, bs[0]);
      (if k == [] then [] else [k]) + KeptBatches(p, bs[1..])
  }

  lemma {:induction false} KeptApp<T>(p: T -> bool, a: seq<T>, b: seq<T>)
    ensures Kept(p, a + b) == Kept(p, a) + Kept(p, b)
  {
    if a == [] {
      assert a + b == b;
    } else {
      assert (a + b)[1..] == a[1..] + b;
      KeptApp(p, a[1..], b);
      var k := if p(a[0]) then [a[0]] else [];
      assert Kept(p, a + b) == k + (Kept(p, a[1..]) + Kept(p, b));
      assert Kept(p, a) == k + Kept(p, a[1..]);
    }
  }

  lemma KeptSnoc<T>(p: T -> bool, init: seq<T>, r: T)
    ensures Kept(p, init + [r]) == if p(r) then Kept(p, init) + [r] else Kept(p, init)
  {
    KeptApp(p, init, [r]);
    assert [r][1..] == [] && Kept(p, []) == [];
  }

  // What is kept are the rows for which p holds, each as often as it comes and in the order of the input.
  lemma {:induction false} KeptPlaces<T>(p: T -> bool, rows: seq<T>) returns (at: seq<nat>)
    ensures Selects(p, rows, Kept(p, rows), at)
  {
    if rows == [] {
      at := [];
    } else {
      hide Kept, Selects;
      var init, r := rows[..|rows| - 1], rows[|rows| - 1];
      at := KeptPlaces(p, init);
      assert rows == init + [r];
      SelectsMore(p, init, r, Kept(p, init), at);
      KeptSnoc(p, init, r);
      at := if p(r) then at + [|init|] else at;
    }
  }

  lemma KeptMembers<T>(p: T -> bool, rows: seq<T>, r: T)
    ensures r in Kept(p, rows) <==> r in rows && p(r)
  {
    var at := KeptPlaces(p, rows);
    if r in rows && p(r) {
      var k :| 0 <= k < |rows| && rows[k] == r;
      var i :| 0 <= i < |at| && at[i] == k;
      assert Kept(p, rows)[i] == r;
    }
  }

  // However the rows are cut, the filtered batches are the filtered rows.
  lemma {:induction false} KeptFlat<T>(p: T -> bool, bs: seq<seq<T>>)
    ensures Flat(KeptBatches(p, bs)) == Kept(p, Flat(bs))
  {
    if bs != [] {
      KeptFlat(p, bs[1..]);
      KeptApp(p, bs[0], Flat(bs[1..]));
      var k := Kept(p, bs[0]);
      var rest := KeptBatches(p, bs[1..]);
      if k != [] { assert ([k] + rest)[1..] == rest; } else { assert [] + rest == rest; }
    }
  }

  function Drop<T>(n: int, s: seq<T>): seq<T> {
    if n <= 0 then s else if n >= |s| then [] else s[n..]
  }

  // A negative limit is none.
  function Take<T>(n: int, limited: bool, s: seq<T>): seq<T> {
    if !limited then s else if n <= 0 then [] else if n >= |s| then s else s[..n]
  }

  // The rows after the offset, up to the limit.
  function Window<T>(n: int, limited: bool, offset: int, s: seq<T>): seq<T> {
    Take(n, limited, Drop(offset, s))
  }

  // Row i of the window is the row at i behind the offset; as many as there are, and no more than the limit.
  lemma WindowRows<T>(limit: int, offset: nat, s: seq<T>)
    ensures var w := Window(limit, limit >= 0, offset, s);
            && |w| <= |s| && (limit >= 0 ==> |w| <= limit)
            && (|w| == limit || |w| == (if offset <= |s| then |s| - offset else 0))
            && forall i :: 0 <= i < |w| ==> offset + i < |s| && w[i] == s[offset + i]
  {
  }

  // The batches limit passes on: a batch wholly skipped is passed on empty.
  function Limited<T>(bs: seq<seq<T>>, limit: int, offset: int, emitted: int, skipped: int): seq<seq<T>>
    decreases |bs|
  {
    if limit >= 0 && emitted >= limit then []
    else if bs == [] then []
    else
      var b := bs[0];
      var skip := if skipped < offset then offset - skipped else 0;
      if skipped < offset && skip >= |b| then [[]] + Limited(bs[1..], limit, offset, emitted, skipped + |b|)
      else
        var out := Cut(b, skip, limit, emitted);
        [out] + Limited(bs[1..], limit, offset, emitted + |out|, if skipped < offset then offset else skipped)
  }

  function Cut<T>(b: seq<T>, start: nat, limit: int, emitted: int): seq<T>
    requires start <= |b| && (limit >= 0 ==> emitted <= limit)
  {
    var avail := |b| - start;
    if limit >= 0 && emitted + avail > limit then b[start..start + (limit - emitted)] else b[start..]
  }

  // ---- the operators

  class Source<T> {
    var left: seq<seq<T>>

    constructor (batches: seq<seq<T>>)
      ensures left == batches
    {
      left := batches;
    }

    method Next() returns (r: Pulled<T>)
      modifies this
      ensures if old(left) == [] then r == End && left == [] else r == Rows(old(left)[0]) && left == old(left)[1..]
    {
      if left == [] { return End; }
      r := Rows(left[0]);
      left := left[1..];
    }
  }

  class Filter<T> {
    const child: Source<T>
    const p: T -> bool

    constructor (child: Source<T>, p: T -> bool)
      ensures this.child == child && this.p == p
    {
      this.child, this.p := child, p;
    }

    // The next batch with a row left in it; never an empty one.
    method Next() returns (r: Pulled<T>)
      modifies child
      ensures var bs := KeptBatches(p, old(child.left));
              if bs == [] then r == End && child.left == []
              else r == Rows(bs[0]) && bs[0] != [] && KeptBatches(p, child.left) == bs[1..]
    {
      while true
        invariant KeptBatches(p, child.left) == KeptBatches(p, old(child.left))
        decreases |child.left|
      {
        ghost var before := child.left;
        var src := child.Next();
        if src.End? { return End; }
        var dst := KeepRows(p, src.rows);
        assert before[0] == src.rows && before[1..] == child.left;
        if |dst| > 0 {
          assert ([dst] + KeptBatches(p, child.left))[1..] == KeptBatches(p, child.left);
          return Rows(dst);
        }
        assert [] + KeptBatches(p, child.left) == KeptBatches(p, child.left);
      }
    }
  }

  // The row loop of filter.
  method KeepRows<T>(p: T -> bool, rows: seq<T>) returns (dst: seq<T>)
    ensures dst == Kept(p, rows)
  {
    dst := [];
    for i := 0 to |rows|
      invariant dst == Kept(p, rows[..i])
    {
      assert rows[..i + 1] == rows[..i] + [rows[i]];
      KeptApp(p, rows[..i], [rows[i]]);
      assert [rows[i]][1..] == [];
      if p(rows[i]) { dst := dst + [rows[i]]; }
    }
    assert rows[..|rows|] == rows;
  }

  // The row loop of limit.
  method CutRows<T>(b: seq<T>, start: nat, limit: int, emitted: int) returns (dst: seq<T>)
    requires start <= |b| && (limit >= 0 ==> emitted <= limit)
    ensures dst == Cut(b, start, limit, emitted)
  {
    var avail := |b| - start;
    if limit >= 0 && emitted + avail > limit { avail := limit - emitted; }
    dst := [];
    for r := 0 to avail
      invariant dst == b[start..start + r]
    {
      dst := dst + [b[start + r]];
    }
  }

  // One batch of the child turned into one batch passed on.
  lemma LimitedStep<T>(bs: seq<seq<T>>, limit: int, offset: int, emitted: int, skipped: int)
    requires bs != [] && !(limit >= 0 && emitted >= limit)
    ensures var b := bs[0];
            var skip := if skipped < offset then offset - skipped else 0;
            var all := Limited(bs, limit, offset, emitted, skipped);
            all != [] &&
            if skipped < offset && skip >= |b|
            then all[0] == [] && all[1..] == Limited(bs[1..], limit, offset, emitted, skipped + |b|)
            else
              var out := Cut(b, skip, limit, emitted);
              all[0] == out && all[1..] ==
                Limited(bs[1..], limit, offset, emitted + |out|, if skipped < offset then offset else skipped)
  {
  }

  lemma FlatTaken<T>(rows: seq<T>, coming: seq<seq<T>>)
    requires coming != []
    ensures rows + Flat(coming) == rows + coming[0] + Flat(coming[1..])
  {
    FlatCons(coming);
    assert rows + (coming[0] + Flat(coming[1..])) == rows + coming[0] + Flat(coming[1..]);
  }

  lemma DrivenTaken<T>(rows: seq<T>, coming: seq<seq<T>>)
    requires coming != [] && coming[0] != []
    ensures rows + Driven(coming) == rows + coming[0] + Driven(coming[1..])
  {
    assert rows + (coming[0] + Driven(coming[1..])) == rows + coming[0] + Driven(coming[1..]);
  }

  class Limit<T> {
    const child: Filter<T>
    const limit: int
    const offset: int
    var emitted: int
    var skipped: int

    constructor (child: Filter<T>, limit: int, offset: int)
      ensures this.child == child && this.limit == limit && this.offset == offset && emitted == 0 && skipped == 0
    {
      this.child, this.limit, this.offset := child, limit, offset;
      emitted, skipped := 0, 0;
    }

    ghost predicate Valid()
      reads this
    {
      0 <= emitted && (limit >= 0 ==> emitted <= limit)
    }

    // What is left of the filtered input.
    ghost function Input(): seq<seq<T>>
      reads child.child
    {
      KeptBatches(child.p, child.child.left)
    }

    // The batches still to come.
    ghost function Coming(): seq<seq<T>>
      reads this, child.child
    {
      Limited(Input(), limit, offset, emitted, skipped)
    }

    method Next() returns (r: Pulled<T>)
      requires Valid()
      modifies this, child.child
      ensures Valid()
      ensures if (limit >= 0 && old(emitted) >= limit) || old(Input()) == [] then r == End
              else
                var b := old(Input())[0];
                var skip := if old(skipped) < offset then offset - old(skipped) else 0;
                && Input() == old(Input())[1..] && r.Rows?
                && if old(skipped) < offset && skip >= |b|
                   then r.rows == [] && emitted == old(emitted) && skipped == old(skipped) + |b|
                   else && r.rows == Cut(b, skip, limit, old(emitted)) && emitted == old(emitted) + |r.rows|
                        && skipped == if old(skipped) < offset then offset else old(skipped)
    {
      if limit >= 0 && emitted >= limit { return End; }
      var src := child.Next();
      if src.End? { return End; }
      var rows := PassOn(src.rows);
      return Rows(rows);
    }

    // A batch of the child, less the rows still to be skipped and those past the limit.
    method PassOn(b: seq<T>) returns (rows: seq<T>)
      requires Valid() && !(limit >= 0 && emitted >= limit)
      modifies this`emitted, this`skipped
      ensures Valid()
      ensures var skip := if old(skipped) < offset then offset - old(skipped) else 0;
              if old(skipped) < offset && skip >= |b|
              then rows == [] && emitted == old(emitted) && skipped == old(skipped) + |b|
              else && rows == Cut(b, skip, limit, old(emitted)) && emitted == old(emitted) + |rows|
                   && skipped == if old(skipped) < offset then offset else old(skipped)
    {
      var start := 0;
      if skipped < offset {
        var skip := offset - skipped;
        if skip >= |b| {
          skipped := skipped + |b|;
          return [];
        }
        start, skipped := skip, offset;
      }
      rows := CutRows(b, start, limit, emitted);
      emitted := emitted + |rows|;
    }

    // One pull takes the first batch that was to come.
    method Pull() returns (r: Pulled<T>)
      requires Valid()
      modifies this, child.child
      ensures Valid()
      ensures old(Coming()) == [] ==> r == End
      ensures old(Coming()) != [] ==> r == Rows(old(Coming())[0]) && Coming() == old(Coming())[1..]
      ensures r.Rows? ==> |Input()| < |old(Input())|
    {
      if Input() != [] && !(limit >= 0 && emitted >= limit) { LimitedStep(Input(), limit, offset, emitted, skipped); }
      r := Next();
    }

    // Draining to the end of the stream.
    method Drain() returns (rows: seq<T>)
      requires Valid()
      modifies this, child.child
      ensures rows == Flat(old(Coming()))
    {
      rows := [];
      ghost var all := Coming();
      while true
        invariant Valid() && Flat(all) == rows + Flat(Coming())
        decreases |Input()|
      {
        ghost var coming := Coming();
        var r := Pull();
        if r.End? { return; }
        FlatTaken(rows, coming);
        rows := rows + r.rows;
      }
    }

    // The driver, which takes an empty batch for the end.
    method Exec() returns (rows: seq<T>)
      requires Valid()
      modifies this, child.child
      ensures rows == Driven(old(Coming()))
    {
      rows := [];
      ghost var all := Coming();
      while true
        invariant Valid() && Driven(all) == rows + Driven(Coming())
        decreases |Input()|
      {
        ghost var coming := Coming();
        var r := Pull();
        if r.End? { return; }
        if |r.rows| == 0 { return; }
        DrivenTaken(rows, coming);
        rows := rows + r.rows;
      }
    }
  }

  function Driven<T>(bs: seq<seq<T>>): seq<T> {
    if bs == [] || bs[0] == [] then [] else bs[0] + Driven(bs[1..])
  }

  // ---- what comes out

  lemma TakeApp<T>(n: int, limited: bool, a: seq<T>, b: seq<T>)
    requires limited ==> |a| <= n
    ensures Take(n, limited, a + b) == a + Take(n - |a|, limited, b)
  {
  }

  lemma FlatCons<T>(all: seq<seq<T>>)
    requires all != []
    ensures Flat(all) == all[0] + Flat(all[1..])
  {
  }

  lemma FlatAfterEmpty<T>(all: seq<seq<T>>)
    requires all != [] && all[0] == []
    ensures Flat(all) == Flat(all[1..])
  {
    FlatCons(all);
    assert [] + Flat(all[1..]) == Flat(all[1..]);
  }

  // What is left of the offset.
  function Ahead(offset: int, skipped: int): (n: nat)
    ensures n > 0 ==> n == offset - skipped
  {
    if skipped < offset then offset - skipped else 0
  }

  // A batch wholly skipped comes out empty.
  lemma FlatSkip<T>(bs: seq<seq<T>>, limit: int, offset: int, emitted: int, skipped: int)
    requires bs != [] && skipped < offset && offset - skipped >= |bs[0]| && !(limit >= 0 && emitted >= limit)
    ensures Flat(Limited(bs, limit, offset, emitted, skipped)) ==
            Flat(Limited(bs[1..], limit, offset, emitted, skipped + |bs[0]|))
  {
    LimitedStep(bs, limit, offset, emitted, skipped);
    FlatAfterEmpty(Limited(bs, limit, offset, emitted, skipped));
  }

  // Of any other, its cut comes out first.
  lemma FlatCut<T>(bs: seq<seq<T>>, limit: int, offset: int, emitted: int, skipped: int)
    requires bs != [] && !(limit >= 0 && emitted >= limit)
    requires !(skipped < offset && offset - skipped >= |bs[0]|)
    ensures var out := Cut(bs[0], Ahead(offset, skipped), limit, emitted);
            Flat(Limited(bs, limit, offset, emitted, skipped)) ==
            out + Flat(Limited(bs[1..], limit, offset, emitted + |out|, if skipped < offset then offset else skipped))
  {
    LimitedStep(bs, limit, offset, emitted, skipped);
    FlatCons(Limited(bs, limit, offset, emitted, skipped));
  }

  // The window on rows whose first batch is wholly skipped.
  lemma WindowSkip<T>(bs: seq<seq<T>>, limit: int, offset: int, emitted: int, skipped: int)
    requires bs != [] && skipped < offset && offset - skipped >= |bs[0]|
    ensures Window(limit - emitted, limit >= 0, offset - skipped, Flat(bs)) ==
            Window(limit - emitted, limit >= 0, offset - (skipped + |bs[0]|), Flat(bs[1..]))
  {
    FlatCons(bs);
    DropMore(offset - skipped, bs[0], Flat(bs[1..]));
  }

  // The window on rows whose first batch reaches into it.
  lemma WindowCut<T>(bs: seq<seq<T>>, limit: int, offset: int, emitted: int, skipped: int)
    requires 0 <= emitted && bs != [] && !(limit >= 0 && emitted >= limit)
    requires !(skipped < offset && offset - skipped >= |bs[0]|)
    ensures var out := Cut(bs[0], Ahead(offset, skipped), limit, emitted);
            var s := if skipped < offset then offset else skipped;
            Window(limit - emitted, limit >= 0, offset - skipped, Flat(bs)) ==
            out + Window(limit - (emitted + |out|), limit >= 0, offset - s, Flat(bs[1..]))
  {
    FlatCons(bs);
    DropWithin(offset - skipped, bs[0], Flat(bs[1..]));
    CutTake(bs[0], Ahead(offset, skipped), Flat(bs[1..]), limit, emitted);
  }

  lemma WindowNone<T>(bs: seq<seq<T>>, limit: int, offset: int, emitted: int, skipped: int)
    requires (limit >= 0 && emitted >= limit) || bs == []
    ensures Flat(Limited(bs, limit, offset, emitted, skipped)) == []
    ensures Window(limit - emitted, limit >= 0, offset - skipped, Flat(bs)) == []
  {
  }

  // Drained to the end, limit over any batches yields the rows after the offset, up to the limit.
  lemma {:induction false} LimitedFlat<T>(bs: seq<seq<T>>, limit: int, offset: int, emitted: int, skipped: int)
    requires 0 <= emitted && (limit >= 0 ==> emitted <= limit)
    ensures Flat(Limited(bs, limit, offset, emitted, skipped)) ==
            Window(limit - emitted, limit >= 0, offset - skipped, Flat(bs))
    decreases |bs|
  {
    hide Window, Limited, Flat;
    if (limit >= 0 && emitted >= limit) || bs == [] {
      WindowNone(bs, limit, offset, emitted, skipped);
    } else if skipped < offset && offset - skipped >= |bs[0]| {
      LimitedFlat(bs[1..], limit, offset, emitted, skipped + |bs[0]|);
      FlatSkip(bs, limit, offset, emitted, skipped);
      WindowSkip(bs, limit, offset, emitted, skipped);
    } else {
      var out := Cut(bs[0], Ahead(offset, skipped), limit, emitted);
      LimitedFlat(bs[1..], limit, offset, emitted + |out|, if skipped < offset then offset else skipped);
      FlatCut(bs, limit, offset, emitted, skipped);
      WindowCut(bs, limit, offset, emitted, skipped);
    }
  }

  lemma DropMore<T>(n: int, b: seq<T>, rest: seq<T>)
    requires n >= |b| && n > 0
    ensures Drop(n, b + rest) == Drop(n - |b|, rest)
  {
  }

  lemma DropWithin<T>(n: int, b: seq<T>, rest: seq<T>)
    requires n < |b| || n <= 0
    ensures Drop(n, b + rest) == b[if n > 0 then n else 0..] + rest
  {
  }

  lemma CutTake<T>(b: seq<T>, skip: nat, rest: seq<T>, limit: int, emitted: int)
    requires skip <= |b| && 0 <= emitted && (limit >= 0 ==> emitted <= limit)
    ensures var out := Cut(b, skip, limit, emitted);
            Take(limit - emitted, limit >= 0, b[skip..] + rest) == out + Take(limit - emitted - |out|, limit >= 0, rest)
  {
    var out := Cut(b, skip, limit, emitted);
    if out == b[skip..] {
      TakeApp(limit - emitted, limit >= 0, out, rest);
    } else {
      assert (b[skip..] + rest)[..limit - emitted] == out;
    }
  }

  // For every way the input is cut into batches.
  lemma PipelineRight<T>(p: T -> bool, bs: seq<seq<T>>, limit: int, offset: int)
    ensures Flat(Limited(KeptBatches(p, bs), limit, offset, 0, 0)) ==
        Window(limit, limit >= 0, offset, Kept(p, Flat(bs)))
  {
    hide Window, Limited, Flat;
    KeptFlat(p, bs);
    LimitedFlat(KeptBatches(p, bs), limit, offset, 0, 0);
  }

  // Once the offset is behind, no batch passed on is empty.
  lemma {:induction false} DrivenAll<T>(bs: seq<seq<T>>, limit: int, offset: int, emitted: int, skipped: int)
    requires 0 <= emitted && (limit >= 0 ==> emitted <= limit) && forall i :: 0 <= i < |bs| ==> bs[i] != []
    requires offset <= skipped
    ensures var out := Limited(bs, limit, offset, emitted, skipped); Driven(out) == Flat(out)
    decreases |bs|
  {
    if !(limit >= 0 && emitted >= limit) && bs != [] {
      var out := Cut(bs[0], 0, limit, emitted);
      var more := Limited(bs[1..], limit, offset, emitted + |out|, skipped);
      DrivenAll(bs[1..], limit, offset, emitted + |out|, skipped);
      assert ([out] + more)[1..] == more && ([out] + more)[0] == out;
      assert out != [];
    }
  }

  lemma DrivenNothing<T>(ks: seq<seq<T>>, limit: int, offset: int)
    requires ks == [] || limit == 0 || offset >= |ks[0]| > 0
    ensures Driven(Limited(ks, limit, offset, 0, 0)) == []
  {
    if ks != [] && limit != 0 { assert Limited(ks, limit, offset, 0, 0)[0] == []; }
  }

  lemma DrivenWhole<T>(ks: seq<seq<T>>, limit: int, offset: int)
    requires ks != [] && limit != 0 && offset < |ks[0]| && forall i :: 0 <= i < |ks| ==> ks[i] != []
    ensures var all := Limited(ks, limit, offset, 0, 0); Driven(all) == Flat(all)
  {
    var all, skip := Limited(ks, limit, offset, 0, 0), Ahead(offset, 0);
    var out := Cut(ks[0], skip, limit, 0);
    LimitedStep(ks, limit, offset, 0, 0);
    DrivenAll(ks[1..], limit, offset, |out|, if 0 < offset then offset else 0);
    assert out != [];
  }

  lemma WindowNothing<T>(limit: int, offset: int, rows: seq<T>)
    ensures Window(limit, limit >= 0, offset, rows) == [] <==> limit == 0 || rows == [] || |rows| <= offset
  {
  }

  // The driver gets all of it exactly when the offset ends inside the first filtered batch, or there is
  // nothing to get.
  lemma DriverRight<T>(p: T -> bool, bs: seq<seq<T>>, limit: int, offset: int)
    ensures var ks := KeptBatches(p, bs);
            Driven(Limited(ks, limit, offset, 0, 0)) == Window(limit, limit >= 0, offset, Kept(p, Flat(bs)))
            <==> ks == [] || offset < |ks[0]| || limit == 0 || |Kept(p, Flat(bs))| <= offset
  {
    var ks, rows := KeptBatches(p, bs), Kept(p, Flat(bs));
    PipelineRight(p, bs, limit, offset);
    KeptFlat(p, bs);
    if ks == [] { assert rows == []; } else { FlatCons(ks); }
    hide Limited, Driven, Window, Flat, Kept, KeptBatches;
    WindowNothing(limit, offset, rows);
    if ks != [] && limit != 0 && offset < |ks[0]| {
      DrivenWhole(ks, limit, offset);
    } else {
      DrivenNothing(ks, limit, offset);
    }
  }

  // It happens: of the rows 1 and 2 in batches of one, offset 1, the driver gets none.
  lemma DriverMisses()
    ensures var bs, limit, offset := [[1], [2]], -1, 1;
            && Driven(Limited(KeptBatches((x: int) => true, bs), limit, offset, 0, 0)) == []
            && Window(limit, limit >= 0, offset, Kept((x: int) => true, Flat(bs))) == [2]
  {
    var p, bs := (x: int) => true, [[1], [2]];
    var one, two: seq<int> := [1], [2];
    var last, none: seq<seq<int>> := [two], [];
    assert bs[1..] == last && last[1..] == none && one[1..] == [] && two[1..] == [] && one + two == [1, 2];
    assert Kept(p, one) == one && Kept(p, two) == two;
    assert KeptBatches(p, [two]) == [two];
    assert KeptBatches(p, bs) == bs;
    assert Limited(bs, -1, 1, 0, 0)[0] == [];
    assert Flat([two]) == two + [];
    assert Flat(bs) == one + (two + []) == [1, 2];
    assert Kept(p, [1, 2]) == [1, 2];
  }
}
