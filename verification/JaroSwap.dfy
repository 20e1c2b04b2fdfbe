// What the similarity costs: which characters may be paired, and the price of one exchange of neighbours.

module JaroSwap {
  import opened Utf8
  import opened J = JaroWinkler

  // Equal characters may be paired at the same place, or up to half the longer text less one apart.
  lemma MeetWithin(c1: seq<Code>, c2: seq<Code>, i: nat, j: nat)
    ensures Meet(c1, c2, i, j) <==>
            && i < |c1| && j < |c2| && c1[i] == c2[j]
            && var d := if i < j then j - i else i - j; d == 0 || 2 * (d + 1) <= |c1| || 2 * (d + 1) <= |c2|
  {
  }

  ghost predicate AllDifferent(c: seq<Code>) {
    forall i, j :: 0 <= i < j < |c| ==> c[i] != c[j]
  }

  // The text with the characters at i and i + 1 exchanged.
  function Swapped(c: seq<Code>, i: nat): (d: seq<Code>)
    requires i + 1 < |c|
    ensures |d| == |c| && d[i] == c[i + 1] && d[i + 1] == c[i]
    ensures forall k :: 0 <= k < |c| && k != i && k != i + 1 ==> d[k] == c[k]
  {
    c[i := c[i + 1]][i + 1 := c[i]]
  }

  // Where the character at k has gone.
  function Gone(k: nat, i: nat): nat {
    if k == i then i + 1 else if k == i + 1 then i else k
  }

  ghost predicate SwapMarks(c: seq<Code>, i: nat, n: nat, f: (seq<bool>, seq<bool>)) {
    && |f.0| == |c| && |f.1| == |c| && MarkedUpTo(f.0, n)
    && forall j: nat :: j < |c| ==> (f.1[j] <==> Gone(j, i) < n)
  }

  // A character that stands at just one place, free and in reach, is paired with that.
  lemma OnlyPartner(x: Code, d: seq<Code>, m: seq<bool>, j: nat, hi: int, q: nat)
    requires |m| == |d| && j <= q < |d| && q <= hi && !m[q] && d[q] == x
    requires forall k :: 0 <= k < |d| && k != q ==> d[k] != x
    ensures FirstFree(x, d, m, j, hi) == q
  {
    hide FirstFree;
    FirstFreeIs(x, d, m, j, hi);
  }

  lemma SwapElsewhere(c: seq<Code>, i: nat, n: nat, k: nat)
    requires AllDifferent(c) && i + 1 < |c| && n < |c| && k < |c|
    ensures Swapped(c, i)[k] == c[n] <==> k == Gone(n, i)
  {
    assert Swapped(c, i)[k] == c[Gone(k, i)];
    var g := Gone(k, i);
    if g < n { assert c[g] != c[n]; } else if n < g { assert c[n] != c[g]; }
  }

  // Every character finds itself in the other text, at most one place off.
  lemma SwapPartner(c: seq<Code>, i: nat, n: nat, m: seq<bool>)
    requires AllDifferent(c) && i + 1 < |c| && |c| >= 4 && n < |c| == |m|
    requires forall j: nat :: j < |c| ==> (m[j] <==> Gone(j, i) < n)
    ensures var w := Window(|c|, |c|); FirstFree(c[n], Swapped(c, i), m, From(n, w), n + w) == Gone(n, i)
  {
    hide FirstFree, Swapped;
    var d, w, q := Swapped(c, i), Window(|c|, |c|), Gone(n, i);
    forall k | 0 <= k < |d| ensures d[k] == c[n] <==> k == q { SwapElsewhere(c, i, n, k); }
    OnlyPartner(c[n], d, m, From(n, w), n + w, q);
  }

  lemma {:induction false} SwapFlags(c: seq<Code>, i: nat, n: nat)
    requires AllDifferent(c) && i + 1 < |c| && |c| >= 4 && n <= |c|
    ensures SwapMarks(c, i, n, Flags(c, Swapped(c, i), n))
    decreases n
  {
    hide FirstFree, Window, AllDifferent;
    if n > 0 {
      SwapFlags(c, i, n - 1);
      SwapPartner(c, i, n - 1, Flags(c, Swapped(c, i), n - 1).1);
    }
  }

  // The number of differing places is the size of the set of them.
  lemma {:induction false} DifferingPlaces(a: seq<Code>, b: seq<Code>, k: nat)
    requires |a| == |b| && k <= |a|
    ensures Differing(a[k..], b[k..]) == |set j: nat | k <= j < |a| && a[j] != b[j]|
    decreases |a| - k
  {
    var all := set j: nat | k <= j < |a| && a[j] != b[j];
    if k == |a| {
      assert all == {};
    } else {
      DifferingPlaces(a, b, k + 1);
      assert a[k..][1..] == a[k + 1..] && b[k..][1..] == b[k + 1..];
      var rest := set j: nat | k + 1 <= j < |a| && a[j] != b[j];
      assert all == (if a[k] != b[k] then {k} else {}) + rest;
    }
  }

  lemma SwapDiffers(c: seq<Code>, i: nat)
    requires AllDifferent(c) && i + 1 < |c|
    ensures Differing(c, Swapped(c, i)) == 2
  {
    var d := Swapped(c, i);
    DifferingPlaces(c, d, 0);
    assert c[0..] == c && d[0..] == d;
    hide Differing, Swapped;
    assert forall j: nat :: j < |c| ==> (c[j] != d[j] <==> j == i || j == i + 1);
    assert (set j: nat | 0 <= j < |c| && c[j] != d[j]) == {i, i + 1};
  }

  lemma {:induction false} SwapCommon(c: seq<Code>, i: nat, k: nat)
    requires AllDifferent(c) && i + 1 < |c| && k <= i && k <= 4
    ensures Common(c, Swapped(c, i), k) == if i < 4 then i else 4
    decreases 4 - k
  {
    if k < 4 && k < i { SwapCommon(c, i, k + 1); }
  }

  lemma SwapScore(n: nat, p: nat)
    requires n >= 2
    ensures Boosted(Jaro(n, 2, n, n), p) == 1.0 - (1.0 - 0.1 * p as real) / (3.0 * n as real)
  {
    var x, q := n as real, 1.0 - 0.1 * p as real;
    var y := 1.0 / x;
    assert x / x == 1.0 && (x - 2.0 / 2.0) / x == 1.0 - y by { assert y * x == 1.0; }
    assert Jaro(n, 2, n, n) == 1.0 - y / 3.0;
    assert q / (3.0 * x) == q * y / 3.0 by { Fraction(q, x, y); }
    assert p as real * 0.1 * (y / 3.0) == (1.0 - q) * y / 3.0;
  }

  lemma Fraction(q: real, x: real, y: real)
    requires x > 0.0 && y * x == 1.0
    ensures 3.0 * x != 0.0 && q / (3.0 * x) == q * y / 3.0
  {
    var z := q * y / 3.0;
    assert z * (3.0 * x) == q * (y * x);
  }

  // Exchanging two neighbours in a text of n different characters, n at least four, costs a third of an n-th of the
  // score, a tenth less of that for each of the characters before them, up to four.
  lemma SwapCosts(c: seq<Code>, i: nat)
    requires AllDifferent(c) && |c| >= 4 && i + 1 < |c|
    ensures var p := if i < 4 then i else 4;
            J.JaroWinkler(c, Swapped(c, i)) == 1.0 - (1.0 - 0.1 * p as real) / (3.0 * |c| as real)
  {
    hide Flags, Marks, Chosen, Differing, Jaro, Boosted, J.JaroWinkler, Common;
    var d := Swapped(c, i);
    var f := Flags(c, d, |c|);
    SwapFlags(c, i, |c|);
    AllMarked(f.0, 0);
    AllMarked(f.1, 0);
    ChosenAll(c, f.0, 0);
    ChosenAll(d, f.1, 0);
    assert c[0..] == c && d[0..] == d;
    var m, t := Parts(c, d);
    SwapDiffers(c, i);
    SwapCommon(c, i, 0);
    SwapScore(|c|, if i < 4 then i else 4);
  }
}
