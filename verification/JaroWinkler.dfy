// Jaro-Winkler similarity: the matching, the transposition scan that never leaves its array, and what the
// score says about the texts.

module JaroWinkler {
  import opened Utf8

  // How many flags are set from place i on.
  function Marks(m: seq<bool>, i: nat): (n: nat)
    requires i <= |m|
    ensures n <= |m| - i
    decreases |m| - i
  {
    if i == |m| then 0 else (if m[i] then 1 else 0) + Marks(m, i + 1)
  }

  lemma {:induction false} MarksSet(m: seq<bool>, i: nat, j: nat, b: bool)
    requires i <= |m| && j < |m|
    ensures Marks(m[j := b], i) + (if i <= j && m[j] then 1 else 0) == Marks(m, i) + (if i <= j && b then 1 else 0)
    decreases |m| - i
  {
    if i < |m| { MarksSet(m, i + 1, j, b); }
  }

  lemma {:induction false} NoMarks(m: seq<bool>, i: nat)
    requires i <= |m| && forall j :: i <= j < |m| ==> !m[j]
    ensures Marks(m, i) == 0
    decreases |m| - i
  {
    if i < |m| { NoMarks(m, i + 1); }
  }

  function Window(l1: nat, l2: nat): (w: nat)
  {
    var m := if l1 > l2 then l1 else l2;
    if m / 2 >= 1 then m / 2 - 1 else 0
  }

  // The first free place of the second text, from j up to hi, that holds c; negative if there is none.
  function FirstFree(c: Code, c2: seq<Code>, m2: seq<bool>, j: nat, hi: int): int
    requires |m2| == |c2|
    decreases |c2| - j
  {
    if j >= |c2| || j > hi then -1
    else if !m2[j] && c == c2[j] then j
    else FirstFree(c, c2, m2, j + 1, hi)
  }

  function From(i: nat, w: nat): nat {
    if i < w then 0 else i - w
  }

  // The flags when the first n places of the first text have each taken the first free partner in the window.
  function Flags(c1: seq<Code>, c2: seq<Code>, n: nat): (r: (seq<bool>, seq<bool>))
    requires n <= |c1|
    ensures |r.0| == |c1| && |r.1| == |c2|
  {
    if n == 0 then (seq(|c1|, _ => false), seq(|c2|, _ => false))
    else
      var f, w := Flags(c1, c2, n - 1), Window(|c1|, |c2|);
      var j := FirstFree(c1[n - 1], c2, f.1, From(n - 1, w), n - 1 + w);
      if 0 <= j < |c2| then (f.0[n - 1 := true], f.1[j := true]) else f
  }

  // The marked characters in order, from place i on.
  function Chosen(c: seq<Code>, m: seq<bool>, i: nat): (r: seq<Code>)
    requires i <= |m| == |c|
    ensures |r| == Marks(m, i)
    decreases |m| - i
  {
    if i == |m| then [] else (if m[i] then [c[i]] else []) + Chosen(c, m, i + 1)
  }

  // In how many places two texts of one length differ.
  function Differing(a: seq<Code>, b: seq<Code>): (n: nat)
    requires |a| == |b|
    ensures n <= |a|
  {
    if a == [] then 0 else (if a[0] != b[0] then 1 else 0) + Differing(a[1..], b[1..])
  }

  lemma {:induction false} DifferingNone(a: seq<Code>, b: seq<Code>)
    requires |a| == |b|
    ensures Differing(a, b) == 0 <==> a == b
  {
    if a != [] {
      DifferingNone(a[1..], b[1..]);
      assert a == [a[0]] + a[1..] && b == [b[0]] + b[1..];
    }
  }

  // The length of the common start of the texts, from k on and up to four.
  function Common(c1: seq<Code>, c2: seq<Code>, k: nat): (n: nat)
    requires k <= 4
    ensures k <= n <= 4
    decreases 4 - k
  {
    if k < 4 && k < |c1| && k < |c2| && c1[k] == c2[k] then Common(c1, c2, k + 1) else k
  }

  // The average of three shares, of m matches among which t stand in the wrong order.
  function Jaro(m: nat, t: nat, l1: nat, l2: nat): real
    requires m > 0 && l1 > 0 && l2 > 0
  {
    (m as real / l1 as real + m as real / l2 as real + (m as real - t as real / 2.0) / m as real) / 3.0
  }

  // Winkler's weight: a tenth of what is missing for each character of the common start.
  function Boosted(jaro: real, pref: nat): real {
    jaro + pref as real * 0.1 * (1.0 - jaro)
  }

  // The score.
  function JaroWinkler(c1: seq<Code>, c2: seq<Code>): real {
    if c1 == [] || c2 == [] then if |c1| == |c2| then 1.0 else 0.0
    else
      FlagsMarks(c1, c2, |c1|);
      var f := Flags(c1, c2, |c1|);
      var m := Marks(f.0, 0);
      if m == 0 then 0.0
      else
        var t := Differing(Chosen(c1, f.0, 0), Chosen(c2, f.1, 0));
        Boosted(Jaro(m, t, |c1|, |c2|), Common(c1, c2, 0))
  }

  // A pairing of equal characters no further apart than the window, each used once; at[i] is the partner of
  // place i of the first text, or negative.
  ghost predicate Pairing(c1: seq<Code>, c2: seq<Code>, m1: seq<bool>, m2: seq<bool>, at: seq<int>, w: nat) {
    && |m1| == |at| == |c1| && |m2| == |c2|
    && (forall i {:trigger at[i]} :: 0 <= i < |c1| ==>
          && (m1[i] <==> at[i] >= 0)
          && (at[i] >= 0 ==> at[i] < |c2| && m2[at[i]] && c1[i] == c2[at[i]] && i - w <= at[i] <= i + w))
    && (forall i, j :: 0 <= i < j < |c1| && at[i] >= 0 ==> at[i] != at[j])
    && (forall j {:trigger m2[j]} :: 0 <= j < |c2| && m2[j] ==> j in at)
  }

  // The first free place of the second text that matches place i, within the window.
  method Partner(c1: seq<Code>, c2: seq<Code>, i: nat, m2: array<bool>, w: nat) returns (j: int)
    requires i < |c1| && m2.Length == |c2|
    ensures j >= 0 ==> j < |c2| && !m2[j] && c1[i] == c2[j] && i - w <= j <= i + w
    ensures j == FirstFree(c1[i], c2, m2[..], From(i, w), i + w)
  {
    var lo := if i - w < 0 then 0 else i - w;
    var hi := if i + w >= |c2| then |c2| - 1 else i + w;
    j := lo;
    while j <= hi
      invariant lo <= j && FirstFree(c1[i], c2, m2[..], lo, i + w) == FirstFree(c1[i], c2, m2[..], j, i + w)
      decreases hi + 1 - j
    {
      if !m2[j] && c1[i] == c2[j] { return j; }
      j := j + 1;
    }
    return -1;
  }

  lemma Paired(c1: seq<Code>, c2: seq<Code>, f1: seq<bool>, f2: seq<bool>, at: seq<int>, w: nat, i: nat, j: nat)
    requires Pairing(c1, c2, f1, f2, at, w) && i < |c1| && at[i] < 0
    requires j < |c2| && !f2[j] && c1[i] == c2[j] && i - w <= j <= i + w
    ensures Pairing(c1, c2, f1[i := true], f2[j := true], at[i := j], w) && !f1[i]
  {
    var at' := at[i := j];
    forall k, l | 0 <= k < l < |c1| && at'[k] >= 0 ensures at'[k] != at'[l] {
      if l == i { assert at[k] >= 0 && f2[at[k]]; }
      if k == i && at[l] >= 0 { assert f2[at[l]]; }
    }
    forall q {:trigger f2[j := true][q]} | 0 <= q < |c2| && f2[j := true][q] ensures q in at' {
      if q == j {
        assert at'[i] == j;
      } else {
        assert f2[q] && q in at;
        var k :| 0 <= k < |at| && at[k] == q;
        assert at'[k] == q;
      }
    }
  }

  // The flags and the pairing after the first i places of the first text.
  ghost predicate Matched(c1: seq<Code>, c2: seq<Code>, i: nat, m1: seq<bool>, m2: seq<bool>, at: seq<int>, n: nat) {
    && i <= |c1| && (m1, m2) == Flags(c1, c2, i) && n == Marks(m1, 0) == Marks(m2, 0)
    && Pairing(c1, c2, m1, m2, at, Window(|c1|, |c2|)) && (forall k :: i <= k < |c1| ==> at[k] < 0)
  }

  lemma MatchedNone(c1: seq<Code>, c2: seq<Code>, m1: seq<bool>, m2: seq<bool>)
    requires m1 == seq(|c1|, _ => false) && m2 == seq(|c2|, _ => false)
    ensures Matched(c1, c2, 0, m1, m2, seq(|c1|, _ => -1), 0)
  {
    NoMarks(m1, 0);
    NoMarks(m2, 0);
  }

  lemma MatchedMore(c1: seq<Code>, c2: seq<Code>, i: nat, m1: seq<bool>, m2: seq<bool>, at: seq<int>, n: nat, j: int)
    requires i < |c1| && Matched(c1, c2, i, m1, m2, at, n)
    requires var w := Window(|c1|, |c2|);
             && j == FirstFree(c1[i], c2, m2, From(i, w), i + w)
             && (j >= 0 ==> j < |c2| && !m2[j] && c1[i] == c2[j] && i - w <= j <= i + w)
    ensures if j >= 0 then Matched(c1, c2, i + 1, m1[i := true], m2[j := true], at[i := j], n + 1)
            else Matched(c1, c2, i + 1, m1, m2, at, n)
  {
    if j >= 0 {
      Paired(c1, c2, m1, m2, at, Window(|c1|, |c2|), i, j);
      MarksSet(m1, 0, i, true);
      MarksSet(m2, 0, j, true);
    }
  }

  method Match(c1: seq<Code>, c2: seq<Code>)
    returns (m1: array<bool>, m2: array<bool>, matches: nat, ghost at: seq<int>)
    ensures m1.Length == |c1| && m2.Length == |c2| && fresh(m1) && fresh(m2)
    ensures (m1[..], m2[..]) == Flags(c1, c2, |c1|)
    ensures Pairing(c1, c2, m1[..], m2[..], at, Window(|c1|, |c2|))
    ensures matches == Marks(m1[..], 0) == Marks(m2[..], 0)
  {
    var w := Window(|c1|, |c2|);
    m1 := new bool[|c1|](_ => false);
    m2 := new bool[|c2|](_ => false);
    matches := 0;
    at := seq(|c1|, _ => -1);
    assert m1[..] == seq(|c1|, _ => false) && m2[..] == seq(|c2|, _ => false);
    MatchedNone(c1, c2, m1[..], m2[..]);
    for i := 0 to |c1|
      invariant fresh(m1) && fresh(m2) && m1 != m2
      invariant Matched(c1, c2, i, m1[..], m2[..], at, matches)
    {
      ghost var f1, f2 := m1[..], m2[..];
      var j := Partner(c1, c2, i, m2, w);
      MatchedMore(c1, c2, i, f1, f2, at, matches, j);
      if j >= 0 {
        m1[i] := true;
        m2[j] := true;
        at := at[i := j];
        matches := matches + 1;
        assert m1[..] == f1[i := true] && m2[..] == f2[j := true];
      }
    }
  }

  // The scan for transpositions: how many of the marked characters, taken in order, differ. As many flags are
  // left in the second text as in the first, so the inner loop, which has no bound of its own, always finds one.
  method Transpositions(c1: seq<Code>, c2: seq<Code>, m1: array<bool>, m2: array<bool>) returns (t: nat)
    requires m1.Length == |c1| && m2.Length == |c2| && Marks(m1[..], 0) == Marks(m2[..], 0)
    ensures t == Differing(Chosen(c1, m1[..], 0), Chosen(c2, m2[..], 0)) <= Marks(m1[..], 0)
  {
    t := 0;
    var k: nat := 0;
    ghost var f1, f2 := m1[..], m2[..];
    for i := 0 to |c1|
      invariant k <= |c2| && Marks(f1, i) == Marks(f2, k)
      invariant t + Differing(Chosen(c1, f1, i), Chosen(c2, f2, k)) == Differing(Chosen(c1, f1, 0), Chosen(c2, f2, 0))
    {
      if !m1[i] {
        assert !f1[i];
        assert Chosen(c1, f1, i) == Chosen(c1, f1, i + 1);
        continue;
      }
      assert f1[i] && Marks(f2, k) >= 1;
      ghost var rest := Chosen(c2, f2, k);
      while !m2[k]
        invariant k < |c2| && Marks(f2, k) == Marks(f1, i) && Chosen(c2, f2, k) == rest
        decreases |c2| - k
      {
        assert !f2[k];
        k := k + 1;
      }
      assert f2[k];
      assert Chosen(c1, f1, i)[1..] == Chosen(c1, f1, i + 1) && rest[1..] == Chosen(c2, f2, k + 1);
      if c1[i] != c2[k] { t := t + 1; }
      k := k + 1;
    }
  }

  // ---- the score

  lemma Product(a: real, b: real)
    requires a >= 0.0 && b >= 0.0
    ensures a * b >= 0.0
  {
  }

  // A share of what is missing, at most four tenths, stays in the range.
  lemma Boost(jaro: real, pref: nat)
    requires 0.0 < jaro <= 1.0 && pref <= 4
    ensures 0.0 < Boosted(jaro, pref) <= 1.0
    ensures Boosted(jaro, pref) == 1.0 <==> jaro == 1.0
  {
    var q, d := pref as real * 0.1, 1.0 - jaro;
    assert 0.0 <= pref as real <= 4.0;
    Product(q, d);
    Product(0.4 - q, d);
    assert (0.4 - q) * d == 0.4 * d - q * d;
    assert Boosted(jaro, pref) == jaro + q * d;
  }

  method Prefix(c1: seq<Code>, c2: seq<Code>) returns (pref: nat)
    ensures pref == Common(c1, c2, 0)
  {
    pref := 0;
    while pref < |c1| && pref < |c2| && pref < 4
      invariant pref <= 4 && Common(c1, c2, 0) == Common(c1, c2, pref)
    {
      if c1[pref] != c2[pref] { break; }
      pref := pref + 1;
    }
  }

  method Similarity(c1: seq<Code>, c2: seq<Code>) returns (r: real)
    ensures r == JaroWinkler(c1, c2)
  {
    if |c1| == 0 || |c2| == 0 { return if |c1| == |c2| then 1.0 else 0.0; }
    var m1, m2, matches, at := Match(c1, c2);
    if matches == 0 { return 0.0; }
    var t := Transpositions(c1, c2, m1, m2);
    var pref := Prefix(c1, c2);
    r := Score(matches, t, |c1|, |c2|, pref);
  }

  method Score(matches: nat, t: nat, l1: nat, l2: nat, pref: nat) returns (r: real)
    requires matches > 0 && l1 > 0 && l2 > 0
    ensures r == Boosted(Jaro(matches, t, l1, l2), pref)
  {
    var mm, tt := matches as real, t as real / 2.0;
    var jaro := (mm / l1 as real + mm / l2 as real + (mm - tt) / mm) / 3.0;
    r := jaro + pref as real * 0.1 * (1.0 - jaro);
  }

  // On bytes, code points are compared.
  method TextSimilarity(x: seq<Byte>, y: seq<Byte>) returns (r: real)
    ensures r == JaroWinkler(QeDecode(x), QeDecode(y))
  {
    var cx, lx := QeDecodeInto(x);
    var cy, ly := QeDecodeInto(y);
    r := Similarity(cx[..lx], cy[..ly]);
  }

  // ---- what the score says

  lemma {:induction false} AllMarked(m: seq<bool>, i: nat)
    requires i <= |m|
    ensures Marks(m, i) == |m| - i <==> forall j :: i <= j < |m| ==> m[j]
    decreases |m| - i
  {
    if i < |m| { AllMarked(m, i + 1); }
  }

  lemma {:induction false} ChosenAll(c: seq<Code>, m: seq<bool>, i: nat)
    requires i <= |m| == |c| && forall j :: i <= j < |m| ==> m[j]
    ensures Chosen(c, m, i) == c[i..]
    decreases |m| - i
  {
    if i < |m| {
      ChosenAll(c, m, i + 1);
      assert c[i..] == [c[i]] + c[i + 1..];
    }
  }

  // A partner taken is free, equal and the first such in the window.
  lemma {:induction false} FirstFreeIs(c: Code, c2: seq<Code>, m2: seq<bool>, j: nat, hi: int)
    requires |m2| == |c2|
    ensures var r := FirstFree(c, c2, m2, j, hi);
            && (r < 0 <==> forall q :: j <= q < |c2| && q <= hi ==> m2[q] || c != c2[q])
            && (r >= 0 ==> j <= r < |c2| && r <= hi && !m2[r] && c == c2[r] &&
                           forall q :: j <= q < r ==> m2[q] || c != c2[q])
    decreases |c2| - j
  {
    if j < |c2| && j <= hi && (m2[j] || c != c2[j]) { FirstFreeIs(c, c2, m2, j + 1, hi); }
  }

  // Both texts have as many marks as places were matched, and nothing is marked beyond.
  lemma {:induction false} FlagsMarks(c1: seq<Code>, c2: seq<Code>, n: nat)
    requires n <= |c1|
    ensures var f := Flags(c1, c2, n);
            Marks(f.0, 0) == Marks(f.1, 0) && forall i :: n <= i < |c1| ==> !f.0[i]
    decreases n
  {
    var f := Flags(c1, c2, n);
    if n == 0 {
      NoMarks(f.0, 0);
      NoMarks(f.1, 0);
    } else {
      var g, w := Flags(c1, c2, n - 1), Window(|c1|, |c2|);
      FlagsMarks(c1, c2, n - 1);
      FirstFreeIs(c1[n - 1], c2, g.1, From(n - 1, w), n - 1 + w);
      var j := FirstFree(c1[n - 1], c2, g.1, From(n - 1, w), n - 1 + w);
      if j >= 0 {
        MarksSet(g.0, 0, n - 1, true);
        MarksSet(g.1, 0, j, true);
      }
    }
  }

  ghost predicate MarkedUpTo(m: seq<bool>, n: nat) {
    forall j :: 0 <= j < |m| ==> (m[j] <==> j < n)
  }

  // On equal texts every place meets itself.
  lemma {:induction false} SelfFlags(c: seq<Code>, n: nat)
    requires n <= |c|
    ensures MarkedUpTo(Flags(c, c, n).0, n) && MarkedUpTo(Flags(c, c, n).1, n)
    decreases n
  {
    hide FirstFree, Window;
    if n > 0 {
      var g, w := Flags(c, c, n - 1), Window(|c|, |c|);
      SelfFlags(c, n - 1);
      FirstFreeIs(c[n - 1], c, g.1, From(n - 1, w), n - 1 + w);
      assert !g.1[n - 1] && FirstFree(c[n - 1], c, g.1, From(n - 1, w), n - 1 + w) == n - 1;
    }
  }

  // Two characters that are equal and no further apart than the window.
  predicate Meet(c1: seq<Code>, c2: seq<Code>, i: nat, j: nat) {
    i < |c1| && j < |c2| && c1[i] == c2[j] && From(i, Window(|c1|, |c2|)) <= j <= i + Window(|c1|, |c2|)
  }

  // Nothing is marked exactly as long as no characters meet.
  lemma {:induction false} NoneMeet(c1: seq<Code>, c2: seq<Code>, n: nat)
    requires n <= |c1|
    ensures Marks(Flags(c1, c2, n).1, 0) == 0 <==> forall i: nat, j: nat :: i < n ==> !Meet(c1, c2, i, j)
    decreases n
  {
    var f := Flags(c1, c2, n);
    if n == 0 {
      NoMarks(f.1, 0);
    } else {
      var p: nat := n - 1;
      var g, w := Flags(c1, c2, p), Window(|c1|, |c2|);
      NoneMeet(c1, c2, p);
      FirstFreeIs(c1[p], c2, g.1, From(p, w), p + w);
      MarkedSome(g.1, 0);
      var k := FirstFree(c1[p], c2, g.1, From(p, w), p + w);
      if k >= 0 {
        MarksSet(g.1, 0, k, true);
        assert Meet(c1, c2, p, k);
      } else if j: nat :| Meet(c1, c2, p, j) {
        assert g.1[j];
      }
    }
  }

  lemma {:induction false} MarkedSome(m: seq<bool>, i: nat)
    requires i <= |m|
    ensures Marks(m, i) == 0 <==> forall j :: i <= j < |m| ==> !m[j]
    decreases |m| - i
  {
    if i < |m| { MarkedSome(m, i + 1); }
  }

  // A share is at most one, and one only of the whole.
  lemma Share(a: real, b: real)
    requires 0.0 <= a <= b && b > 0.0
    ensures 0.0 <= a / b <= 1.0 && (a / b == 1.0 <==> a == b) && (a / b == 0.0 <==> a == 0.0)
  {
    assert a / b * b == a;
    if a / b > 1.0 { Product(a / b - 1.0, b); }
  }

  lemma JaroRange(m: nat, t: nat, l1: nat, l2: nat)
    requires 0 < m <= l1 && m <= l2 && t <= m
    ensures 0.0 < Jaro(m, t, l1, l2) <= 1.0
    ensures Jaro(m, t, l1, l2) == 1.0 <==> t == 0 && m == l1 == l2
  {
    Share(m as real, l1 as real);
    Share(m as real, l2 as real);
    Share(m as real - t as real / 2.0, m as real);
  }

  // On texts that are not empty: the parts of the score.
  lemma Parts(c1: seq<Code>, c2: seq<Code>) returns (m: nat, t: nat)
    requires c1 != [] && c2 != []
    ensures m == Marks(Flags(c1, c2, |c1|).0, 0) == Marks(Flags(c1, c2, |c1|).1, 0) && t <= m <= |c1| && m <= |c2|
    ensures t == Differing(Chosen(c1, Flags(c1, c2, |c1|).0, 0), Chosen(c2, Flags(c1, c2, |c1|).1, 0))
    ensures m == 0 ==> JaroWinkler(c1, c2) == 0.0
    ensures m > 0 ==> JaroWinkler(c1, c2) == Boosted(Jaro(m, t, |c1|, |c2|), Common(c1, c2, 0))
  {
    FlagsMarks(c1, c2, |c1|);
    var f := Flags(c1, c2, |c1|);
    m, t := Marks(f.0, 0), Differing(Chosen(c1, f.0, 0), Chosen(c2, f.1, 0));
  }

  // All of both texts is matched and in order exactly if they are equal.
  lemma WholeMatch(c1: seq<Code>, c2: seq<Code>)
    requires c1 != [] && c2 != []
    ensures var f := Flags(c1, c2, |c1|);
            && Marks(f.0, 0) == Marks(f.1, 0)
            && (Marks(f.0, 0) == |c1| == |c2| && Differing(Chosen(c1, f.0, 0), Chosen(c2, f.1, 0)) == 0 <==> c1 == c2)
  {
    var f := Flags(c1, c2, |c1|);
    FlagsMarks(c1, c2, |c1|);
    if c1 == c2 { SelfFlags(c1, |c1|); }
    AllMarked(f.0, 0);
    AllMarked(f.1, 0);
    if Marks(f.0, 0) == |c1| == |c2| {
      ChosenAll(c1, f.0, 0);
      ChosenAll(c2, f.1, 0);
      DifferingNone(c1, c2);
    }
  }

  // The score is a number from zero to one; one exactly on equal texts; zero, on texts that are not empty,
  // exactly if no two equal characters are within the window of each other.
  lemma ScoreMeans(c1: seq<Code>, c2: seq<Code>)
    ensures 0.0 <= JaroWinkler(c1, c2) <= 1.0
    ensures JaroWinkler(c1, c2) == 1.0 <==> c1 == c2
    ensures c1 != [] && c2 != [] ==>
              (JaroWinkler(c1, c2) == 0.0 <==> forall i: nat, j: nat :: !Meet(c1, c2, i, j))
  {
    if c1 != [] && c2 != [] {
      var m, t := Parts(c1, c2);
      NoneMeet(c1, c2, |c1|);
      WholeMatch(c1, c2);
      if m > 0 {
        JaroRange(m, t, |c1|, |c2|);
        Boost(Jaro(m, t, |c1|, |c2|), Common(c1, c2, 0));
      }
    }
  }
}
