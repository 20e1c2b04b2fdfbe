// What the aggregates show, said of the rows alone.

module AggMeaning {
  import opened HashAgg
  import opened Shared

  // ---- the rows of a group

  // They are the rows of the key, each as often as it comes and in the order of the input.
  lemma {:induction false} OfSelects<Row>(key: Row -> Key, rows: seq<Row>, k: Key) returns (at: seq<nat>)
    ensures Selects((r: Row) => key(r) == k, rows, Of(key, rows, k), at)
  {
    var p := (r: Row) => key(r) == k;
    if rows == [] {
      at := [];
    } else {
      hide Of, Selects;
      var init, r := rows[..|rows| - 1], rows[|rows| - 1];
      at := OfSelects(key, init, k);
      assert rows == init + [r];
      SelectsMore(p, init, r, Of(key, init, k), at);
      OfMore(key, init, r, k);
      assert Of(key, rows, k) == if p(r) then Of(key, init, k) + [r] else Of(key, init, k);
      at := if p(r) then at + [|init|] else at;
    }
  }

  // ---- counts and sums, one row at a time

  function NonNullPlaces(vs: seq<Scalar>): set<nat> {
    set i: nat | i < |vs| && !vs[i].Null?
  }

  lemma {:induction false} NonNullsCount(vs: seq<Scalar>)
    ensures NonNulls(vs) == |NonNullPlaces(vs)|
  {
    if vs == [] {
      assert NonNullPlaces(vs) == {};
    } else {
      var n := |vs| - 1;
      NonNullsCount(vs[..n]);
      assert NonNullPlaces(vs) == NonNullPlaces(vs[..n]) + (if vs[n].Null? then {} else {n});
    }
  }

  // SUM over no row is zero; one more row adds its number to it, and a null nothing.
  lemma SumSteps<Row>(o: Out<Row>, rows: seq<Row>, r: Row)
    requires o.fn == Sum
    ensures Shown(Sum, Folded(o, [])) == Dbl(0.0)
    ensures Shown(Sum, Folded(o, rows)).Dbl?
    ensures var before, v := Shown(Sum, Folded(o, rows)).d, o.arg(r);
            && (v.Null? ==> Shown(Sum, Folded(o, rows + [r])) == Dbl(before))
            && (v.Int? ==> Shown(Sum, Folded(o, rows + [r])) == Dbl(before + v.i as real))
            && (v.Dbl? ==> Shown(Sum, Folded(o, rows + [r])) == Dbl(before + v.d))
  {
    hide Folded;
    FoldedNone(o);
    FoldedMore(o, rows, r);
  }

  lemma FoldedNone<Row>(o: Out<Row>)
    ensures Folded(o, []) == FRESH
  {
  }

  // ---- the least and the greatest

  // Two texts part at place k: there one ends, or has the lesser character.
  ghost predicate Parts(a: string, b: string, k: nat) {
    k <= |a| && k < |b| && a[..k] == b[..k] && (k == |a| || a[k] < b[k])
  }

  // The order of dictionaries.
  ghost predicate Before(a: string, b: string) {
    exists k: nat :: Parts(a, b, k)
  }

  // Numbers by size, texts as in a dictionary.
  ghost predicate NotAfter(a: Scalar, b: Scalar) {
    match (a, b)
    case (Int(x), Int(y)) => x <= y
    case (Dbl(x), Dbl(y)) => x <= y
    case (Text(x), Text(y)) => !Before(y, x)
    case _ => false
  }

  lemma PartsCons(a: string, b: string, k: nat)
    requires a != [] && b != [] && a[0] == b[0] && Parts(a[1..], b[1..], k)
    ensures Parts(a, b, k + 1)
  {
    assert a[..k + 1] == [a[0]] + a[1..][..k] && b[..k + 1] == [b[0]] + b[1..][..k];
  }

  lemma PartsTail(a: string, b: string, k: nat)
    requires k > 0 && Parts(a, b, k)
    ensures a != [] && a[0] == b[0] && Parts(a[1..], b[1..], k - 1)
  {
    assert a[..k][0] == b[..k][0];
    assert a[1..][..k - 1] == a[..k][1..] && b[1..][..k - 1] == b[..k][1..];
  }

  // The program's comparison of texts is that order.
  lemma {:induction false} TextOrder(a: string, b: string)
    ensures Less(Text(a), Text(b)) <==> Before(a, b)
  {
    if a != [] && b != [] && a[0] == b[0] {
      TextOrder(a[1..], b[1..]);
      if k: nat :| Parts(a[1..], b[1..], k) { PartsCons(a, b, k); }
      if k: nat :| Parts(a, b, k) { PartsTail(a, b, k); }
    } else {
      if b != [] && (a == [] || a[0] < b[0]) { assert Parts(a, b, 0); }
      if k: nat :| Parts(a, b, k) {
        if k > 0 { PartsTail(a, b, k); }
      }
    }
  }

  lemma NoneLess(a: Scalar, b: Scalar)
    requires (a.Int? && b.Int?) || (a.Dbl? && b.Dbl?) || (a.Text? && b.Text?)
    ensures !Less(b, a) <==> NotAfter(a, b)
  {
    if a.Text? { TextOrder(b.s, a.s); }
  }

  // Arguments that are null or all numbers of one kind, or all texts.
  ghost predicate OneKind<Row>(o: Out<Row>, rows: seq<Row>) {
    || (forall i :: 0 <= i < |rows| ==> o.arg(rows[i]).Null? || o.arg(rows[i]).Int?)
    || (forall i :: 0 <= i < |rows| ==> o.arg(rows[i]).Null? || o.arg(rows[i]).Dbl?)
    || (forall i :: 0 <= i < |rows| ==> o.arg(rows[i]).Null? || o.arg(rows[i]).Text?)
  }

  ghost predicate NoneGiven<Row>(o: Out<Row>, rows: seq<Row>) {
    forall i :: 0 <= i < |rows| ==> o.arg(rows[i]).Null?
  }

  // One of the arguments, before or equal to all; nothing only where there is none.
  ghost predicate Smallest<Row>(v: Scalar, o: Out<Row>, rows: seq<Row>) {
    if NoneGiven(o, rows) then v.Null?
    else
      && (exists i :: 0 <= i < |rows| && o.arg(rows[i]) == v)
      && forall i :: 0 <= i < |rows| && !o.arg(rows[i]).Null? ==> NotAfter(v, o.arg(rows[i]))
  }

  ghost predicate Largest<Row>(v: Scalar, o: Out<Row>, rows: seq<Row>) {
    if NoneGiven(o, rows) then v.Null?
    else
      && (exists i :: 0 <= i < |rows| && o.arg(rows[i]) == v)
      && forall i :: 0 <= i < |rows| && !o.arg(rows[i]).Null? ==> NotAfter(o.arg(rows[i]), v)
  }

  lemma GivenSome<Row>(o: Out<Row>, rows: seq<Row>) returns (j: nat)
    requires !NoneGiven(o, rows)
    ensures j < |rows| && !o.arg(rows[j]).Null? && !Args(o, rows)[j].Null?
  {
    j :| 0 <= j < |rows| && !o.arg(rows[j]).Null?;
  }

  lemma ArgsMember<Row>(v: Scalar, o: Out<Row>, rows: seq<Row>)
    requires v in Args(o, rows)
    ensures exists i :: 0 <= i < |rows| && o.arg(rows[i]) == v
  {
    var i :| 0 <= i < |Args(o, rows)| && Args(o, rows)[i] == v;
    assert o.arg(rows[i]) == v;
  }

  lemma MinIsSmallest<Row>(o: Out<Row>, rows: seq<Row>)
    requires o.fn == Min && OneKind(o, rows)
    ensures Smallest(Shown(Min, Folded(o, rows)), o, rows)
  {
    var v, vs := Shown(Min, Folded(o, rows)), Args(o, rows);
    assert Comparable(vs);
    LeastRight(o, rows);
    if !NoneGiven(o, rows) {
      var j := GivenSome(o, rows);
      ArgsMember(v, o, rows);
      forall i | 0 <= i < |rows| && !o.arg(rows[i]).Null? ensures NotAfter(v, o.arg(rows[i])) {
        assert !Less(vs[i], v);
        NoneLess(v, vs[i]);
      }
    }
  }

  lemma MaxIsLargest<Row>(o: Out<Row>, rows: seq<Row>)
    requires o.fn == Max && OneKind(o, rows)
    ensures Largest(Shown(Max, Folded(o, rows)), o, rows)
  {
    var v, vs := Shown(Max, Folded(o, rows)), Args(o, rows);
    assert Comparable(vs);
    GreatestRight(o, rows);
    if !NoneGiven(o, rows) {
      var j := GivenSome(o, rows);
      ArgsMember(v, o, rows);
      forall i | 0 <= i < |rows| && !o.arg(rows[i]).Null? ensures NotAfter(o.arg(rows[i]), v) {
        assert !Less(v, vs[i]);
        NoneLess(vs[i], v);
      }
    }
  }
}
