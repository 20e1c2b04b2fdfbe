// The two-row edit distance: what the table computes, that it is a metric, and that it is the least number
// of single-element edits.

module Levenshtein {

  function Min(a: int, b: int): (r: int)
  {
    if a < b then a else b
  }

  function Init<T>(s: seq<T>): (r: seq<T>)
    requires s != []
    ensures |r| == |s| - 1 && r + [s[|s| - 1]] == s
  {
    s[..|s| - 1]
  }

  function Last<T>(s: seq<T>): T
    requires s != []
  {
    s[|s| - 1]
  }

  function Cost<T(==)>(a: T, b: T): (r: nat)
    ensures r <= 1
  {
    if a == b then 0 else 1
  }

  // Deleting the last of x, inserting the last of y, or turning the one into the other, whichever is best.
  function EditDist<T(==)>(x: seq<T>, y: seq<T>): (r: nat)
    decreases |x| + |y|
  {
    if x == [] then |y|
    else if y == [] then |x|
    else Min(Min(EditDist(Init(x), y) + 1, EditDist(x, Init(y)) + 1),
             EditDist(Init(x), Init(y)) + Cost(Last(x), Last(y)))
  }

  // ---- the two rows

  // Entry j is the distance from x to the first j elements of y.
  function Row<T(==)>(x: seq<T>, y: seq<T>): (r: seq<int>)
    ensures |r| == |y| + 1 && forall j {:trigger r[j]} :: 0 <= j < |r| ==> r[j] == EditDist(x, y[..j])
  {
    seq(|y| + 1, j requires 0 <= j <= |y| => EditDist(x, y[..j]))
  }

  lemma FirstRow<T>(y: seq<T>)
    ensures forall j :: 0 <= j <= |y| ==> Row([], y)[j] == j
  {
  }

  lemma Cell<T>(x: seq<T>, y: seq<T>, i: nat, j: nat)
    requires i < |x| && j < |y|
    ensures Row(x[..i + 1], y)[0] == i + 1
    ensures Row(x[..i + 1], y)[j + 1] ==
            Min(Min(Row(x[..i], y)[j + 1] + 1, Row(x[..i + 1], y)[j] + 1), Row(x[..i], y)[j] + Cost(x[i], y[j]))
  {
    assert Init(x[..i + 1]) == x[..i] && Init(y[..j + 1]) == y[..j];
  }

  // One row of the table from the row above it.
  method NextRow<T(==)>(x: seq<T>, y: seq<T>, i: nat, prev: array<int>, cur: array<int>)
    requires i < |x| && y != [] && prev.Length == cur.Length == |y| + 1 && prev != cur
    requires prev[..] == Row(x[..i], y)
    modifies cur
    ensures cur[..] == Row(x[..i + 1], y)
  {
    ghost var above, below := Row(x[..i], y), Row(x[..i + 1], y);
    Cell(x, y, i, 0);
    cur[0] := i + 1;
    for j := 0 to |y|
      invariant forall q :: 0 <= q <= |y| ==> prev[q] == above[q]
      invariant forall q :: 0 <= q <= j ==> cur[q] == below[q]
    {
      Cell(x, y, i, j);
      var cost := if x[i] == y[j] then 0 else 1;
      var del, ins, sub := prev[j + 1] + 1, cur[j] + 1, prev[j] + cost;
      var m := if del < ins then del else ins;
      cur[j + 1] := if m < sub then m else sub;
    }
  }

  // The program's distance is the recursive one, on every pair of sequences.
  method Distance<T(==)>(x: seq<T>, y: seq<T>) returns (d: int)
    ensures d == EditDist(x, y)
  {
    if |x| == 0 { return |y|; }
    if |y| == 0 { return |x|; }
    var prev, cur := new int[|y| + 1], new int[|y| + 1];
    for j := 0 to |y| + 1
      invariant forall q :: 0 <= q < j ==> prev[q] == q
    {
      prev[j] := j;
    }
    FirstRow(y);
    assert x[..0] == [] && prev[..] == Row([], y);
    for i := 0 to |x|
      invariant prev != cur && prev.Length == cur.Length == |y| + 1 && fresh(prev) && fresh(cur)
      invariant prev[..] == Row(x[..i], y)
    {
      NextRow(x, y, i, prev, cur);
      prev, cur := cur, prev;
    }
    assert x[..|x|] == x && y[..|y|] == y;
    assert prev[..][|y|] == prev[|y|];
    return prev[|y|];
  }

  // ---- a metric

  lemma {:induction false} Steps<T>(x: seq<T>, y: seq<T>)
    ensures x != [] ==> EditDist(x, y) <= EditDist(Init(x), y) + 1
    ensures y != [] ==> EditDist(x, y) <= EditDist(x, Init(y)) + 1
    ensures x != [] && y != [] ==> EditDist(x, y) <= EditDist(Init(x), Init(y)) + Cost(Last(x), Last(y))
  {
  }

  lemma {:induction false} Symmetric<T>(x: seq<T>, y: seq<T>)
    ensures EditDist(x, y) == EditDist(y, x)
    decreases |x| + |y|
  {
    if x != [] && y != [] {
      Symmetric(Init(x), y);
      Symmetric(x, Init(y));
      Symmetric(Init(x), Init(y));
    }
  }

  lemma {:induction false} ZeroIffEqual<T>(x: seq<T>, y: seq<T>)
    ensures EditDist(x, y) == 0 <==> x == y
    decreases |x| + |y|
  {
    if x != [] && y != [] {
      ZeroIffEqual(Init(x), Init(y));
      assert x == Init(x) + [Last(x)] && y == Init(y) + [Last(y)];
    }
  }

  lemma {:induction false} Bounds<T>(x: seq<T>, y: seq<T>)
    ensures EditDist(x, y) >= |x| - |y| && EditDist(x, y) >= |y| - |x|
    ensures EditDist(x, y) <= if |x| < |y| then |y| else |x|
    decreases |x| + |y|
  {
    if x != [] && y != [] {
      Bounds(Init(x), y);
      Bounds(x, Init(y));
      Bounds(Init(x), Init(y));
    }
  }

  lemma {:induction false} Triangle<T>(x: seq<T>, y: seq<T>, z: seq<T>)
    ensures EditDist(x, z) <= EditDist(x, y) + EditDist(y, z)
    decreases |x| + |y| + |z|
  {
    Steps(x, z);
    if x == [] {
      Bounds(y, z);
    } else if z == [] {
      Bounds(x, y);
    } else if y == [] {
      Bounds(x, z);
    } else if EditDist(x, y) == EditDist(Init(x), y) + 1 {
      Triangle(Init(x), y, z);
    } else if EditDist(y, z) == EditDist(y, Init(z)) + 1 {
      Triangle(x, y, Init(z));
    } else if EditDist(x, y) == EditDist(x, Init(y)) + 1 {
      if EditDist(y, z) == EditDist(Init(y), z) + 1 {
        Triangle(x, Init(y), z);
      } else {
        Triangle(x, Init(y), Init(z));
      }
    } else if EditDist(y, z) == EditDist(Init(y), z) + 1 {
      Triangle(Init(x), Init(y), z);
    } else {
      Triangle(Init(x), Init(y), Init(z));
    }
  }

  // ---- the least number of edits

  // b is a with one element put in at place i.
  ghost predicate Inserts<T(!new)>(a: seq<T>, b: seq<T>, i: nat) {
    i <= |a| && |b| == |a| + 1 && b == a[..i] + [b[i]] + a[i..]
  }

  // b is a with the element at place i changed.
  ghost predicate Replaces<T(!new)>(a: seq<T>, b: seq<T>, i: nat) {
    i < |a| == |b| && b == a[i := b[i]]
  }

  ghost predicate OneEdit<T(!new)>(a: seq<T>, b: seq<T>) {
    (exists i: nat :: Inserts(a, b, i)) || (exists i: nat :: Inserts(b, a, i)) || (exists i: nat :: Replaces(a, b, i))
  }

  // A way from x to y, one edit at a time.
  ghost predicate EditPath<T(!new)>(path: seq<seq<T>>, x: seq<T>, y: seq<T>) {
    && path != [] && path[0] == x && path[|path| - 1] == y
    && forall i {:trigger path[i]} :: 0 < i < |path| ==> OneEdit(path[i - 1], path[i])
  }

  lemma {:induction false} CommonTail<T>(p: seq<T>, q: seq<T>, s: seq<T>)
    ensures EditDist(p + s, q + s) <= EditDist(p, q)
  {
    if s == [] {
      assert p + s == p && q + s == q;
    } else {
      CommonTail(p, q, Init(s));
      assert Init(p + s) == p + Init(s) && Init(q + s) == q + Init(s);
      assert Last(p + s) == Last(q + s) == Last(s);
      Steps(p + s, q + s);
    }
  }

  lemma InsertsNear<T(!new)>(a: seq<T>, b: seq<T>, i: nat)
    requires Inserts(a, b, i)
    ensures EditDist(a, b) <= 1
  {
    var p := a[..i];
    ZeroIffEqual(p, p);
    assert Init(p + [b[i]]) == p;
    Steps(p, p + [b[i]]);
    CommonTail(p, p + [b[i]], a[i..]);
    assert a == p + a[i..];
  }

  lemma OneChangedNear<T>(p: seq<T>, c: T, d: T, s: seq<T>)
    ensures EditDist(p + [c] + s, p + [d] + s) <= 1
  {
    ZeroIffEqual(p, p);
    assert Init(p + [c]) == p && Init(p + [d]) == p;
    Steps(p + [c], p + [d]);
    CommonTail(p + [c], p + [d], s);
  }

  lemma ReplacesNear<T(!new)>(a: seq<T>, b: seq<T>, i: nat)
    requires Replaces(a, b, i)
    ensures EditDist(a, b) <= 1
  {
    assert a == a[..i] + [a[i]] + a[i + 1..];
    assert b == a[..i] + [b[i]] + a[i + 1..];
    OneChangedNear(a[..i], a[i], b[i], a[i + 1..]);
  }

  lemma OneEditNear<T(!new)>(a: seq<T>, b: seq<T>)
    requires OneEdit(a, b)
    ensures EditDist(a, b) <= 1
  {
    if i: nat :| Inserts(a, b, i) {
      InsertsNear(a, b, i);
    } else if i: nat :| Inserts(b, a, i) {
      InsertsNear(b, a, i);
      Symmetric(a, b);
    } else {
      var i: nat :| Replaces(a, b, i);
      ReplacesNear(a, b, i);
    }
  }

  // No way from x to y is shorter than the distance.
  lemma {:induction false} NoShorterPath<T(!new)>(path: seq<seq<T>>, x: seq<T>, y: seq<T>)
    requires EditPath(path, x, y)
    ensures EditDist(x, y) <= |path| - 1
  {
    if |path| == 1 {
      ZeroIffEqual(x, y);
    } else {
      var shorter := Init(path);
      var w := Last(shorter);
      assert forall i {:trigger shorter[i]} :: 0 <= i < |shorter| ==> shorter[i] == path[i];
      NoShorterPath(shorter, x, w);
      assert OneEdit(path[|path| - 2], path[|path| - 1]);
      OneEditNear(w, y);
      Triangle(x, w, y);
    }
  }

  function Appended<T>(path: seq<seq<T>>, c: T): (r: seq<seq<T>>)
    ensures |r| == |path| && forall i :: 0 <= i < |r| ==> r[i] == path[i] + [c]
  {
    seq(|path|, i requires 0 <= i < |path| => path[i] + [c])
  }

  lemma InsertsAppended<T(!new)>(a: seq<T>, b: seq<T>, i: nat, c: T)
    requires Inserts(a, b, i)
    ensures Inserts(a + [c], b + [c], i)
  {
  }

  lemma OneEditAppended<T(!new)>(a: seq<T>, b: seq<T>, c: T)
    requires OneEdit(a, b)
    ensures OneEdit(a + [c], b + [c])
  {
    if i: nat :| Inserts(a, b, i) {
      InsertsAppended(a, b, i, c);
    } else if i: nat :| Inserts(b, a, i) {
      InsertsAppended(b, a, i, c);
    } else {
      var i: nat :| Replaces(a, b, i);
      assert Replaces(a + [c], b + [c], i);
    }
  }

  lemma PathAppended<T(!new)>(path: seq<seq<T>>, x: seq<T>, y: seq<T>, c: T)
    requires EditPath(path, x, y)
    ensures EditPath(Appended(path, c), x + [c], y + [c])
  {
    var r := Appended(path, c);
    forall i {:trigger r[i]} | 0 < i < |r| ensures OneEdit(r[i - 1], r[i]) {
      assert OneEdit(path[i - 1], path[i]);
      OneEditAppended(path[i - 1], path[i], c);
    }
  }

  lemma PathSnoc<T(!new)>(path: seq<seq<T>>, x: seq<T>, y: seq<T>, z: seq<T>)
    requires EditPath(path, x, y) && OneEdit(y, z)
    ensures EditPath(path + [z], x, z)
  {
    var r := path + [z];
    forall i {:trigger r[i]} | 0 < i < |r| ensures OneEdit(r[i - 1], r[i]) {
      if i < |path| { assert OneEdit(path[i - 1], path[i]); }
    }
  }

  lemma PathCons<T(!new)>(path: seq<seq<T>>, w: seq<T>, x: seq<T>, y: seq<T>)
    requires EditPath(path, x, y) && OneEdit(w, x)
    ensures EditPath([w] + path, w, y)
  {
    hide OneEdit;
    var r := [w] + path;
    forall i {:trigger r[i]} | 0 < i < |r| ensures OneEdit(r[i - 1], r[i]) {
      if i > 1 { assert OneEdit(path[i - 2], path[i - 1]); }
    }
  }

  lemma DropLast<T(!new)>(x: seq<T>)
    requires x != []
    ensures OneEdit(x, Init(x)) && OneEdit(Init(x), x)
  {
    assert Inserts(Init(x), x, |x| - 1);
  }

  // Some way has exactly as many edits as the distance.
  lemma {:induction false} BestPath<T(!new)>(x: seq<T>, y: seq<T>) returns (path: seq<seq<T>>)
    ensures EditPath(path, x, y) && |path| - 1 == EditDist(x, y)
    decreases |x| + |y|
  {
    if x == [] && y == [] {
      path := [x];
    } else if y == [] || (x != [] && EditDist(x, y) == EditDist(Init(x), y) + 1) {
      path := BestPath(Init(x), y);
      DropLast(x);
      PathCons(path, x, Init(x), y);
      path := [x] + path;
    } else if x == [] || EditDist(x, y) == EditDist(x, Init(y)) + 1 {
      path := BestPath(x, Init(y));
      DropLast(y);
      PathSnoc(path, x, Init(y), y);
      path := path + [y];
    } else {
      var p := BestPath(Init(x), Init(y));
      PathAppended(p, Init(x), Init(y), Last(x));
      path := Appended(p, Last(x));
      if Last(x) != Last(y) {
        assert Replaces(Init(y) + [Last(x)], y, |y| - 1);
        PathSnoc(path, x, Init(y) + [Last(x)], y);
        path := path + [y];
      }
    }
  }

  // The distance is the least number of single-element edits that turn x into y.
  lemma LeastEdits<T(!new)>(x: seq<T>, y: seq<T>, n: nat)
    ensures n == EditDist(x, y) <==>
            && (exists path: seq<seq<T>> :: EditPath(path, x, y) && |path| == n + 1)
            && (forall path: seq<seq<T>> :: EditPath(path, x, y) ==> n + 1 <= |path|)
  {
    var best := BestPath(x, y);
    forall path: seq<seq<T>> | EditPath(path, x, y) ensures EditDist(x, y) + 1 <= |path| {
      NoShorterPath(path, x, y);
    }
  }
}
