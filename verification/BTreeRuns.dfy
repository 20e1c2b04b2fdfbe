// Runs of insertions into an empty index: which runs are answered right, and what the answers are.

module BTreeRuns {
  import opened Shared
  import opened BTreeModel
  import opened BTreeOrder
  import opened BTreeIndex

  ghost function After(run: seq<Entry>): Index {
    if run == [] then Empty else Insert(After(run[..|run| - 1]), run[|run| - 1])
  }

  lemma AfterApp(run: seq<Entry>, e: Entry)
    ensures After(run + [e]) == Insert(After(run), e)
  {
    assert (run + [e])[..|run|] == run;
  }

  // Every file reachable by insertions is sound, with any keys.
  lemma {:induction false} RunSound(run: seq<Entry>)
    ensures Sound(After(run)) && After(run).nkeys == |run|
  {
    if run == [] {
      EmptyValid();
    } else {
      RunSound(run[..|run| - 1]);
      InsertSound(After(run[..|run| - 1]), run[|run| - 1]);
    }
  }

  lemma LastOccurs<T>(s: seq<T>, y: T)
    requires s != []
    ensures Occurs(s, y) == Occurs(s[..|s| - 1], y) + (if s[|s| - 1] == y then 1 else 0)
  {
    var n := |s| - 1;
    assert s == s[..n] + [s[n]];
    OccursApp(s[..n], [s[n]], y);
  }

  // Every inserted pair is in a leaf of the tree as often as it was inserted, with any keys.
  lemma {:induction false} RunKeepsAll(run: seq<Entry>, y: Entry)
    ensures Occurs(Ents(After(run).root), y) == Occurs(run, y)
  {
    if run == [] {
      FlatOne(LeafPage(1, []));
      assert Leaves(Empty.root) == [LeafPage(1, [])];
    } else {
      var n := |run| - 1;
      RunSound(run[..n]);
      RunKeepsAll(run[..n], y);
      InsertKeepsAll(After(run[..n]), run[n], y);
      LastOccurs(run, y);
    }
  }

  ghost predicate ValidAt(run: seq<Entry>, i: nat) {
    i <= |run| ==> Valid(After(run[..i]))
  }

  ghost predicate ClashFreeAt(run: seq<Entry>, i: nat) {
    i < |run| ==> !Clash(After(run[..i]).root, run[i])
  }

  lemma AfterNext(run: seq<Entry>, i: nat)
    requires i < |run|
    ensures After(run[..i + 1]) == Insert(After(run[..i]), run[i])
  {
    assert run[..i + 1][..i] == run[..i];
  }

  lemma StepIff(run: seq<Entry>, i: nat)
    requires i < |run| && ValidAt(run, i)
    ensures ValidAt(run, i + 1) <==> ClashFreeAt(run, i)
  {
    AfterNext(run, i);
    InsertValidIff(After(run[..i]), run[i]);
  }

  lemma {:induction false} ClashFreeValid(run: seq<Entry>, i: nat)
    requires i <= |run| && forall j: nat {:trigger ClashFreeAt(run, j)} :: ClashFreeAt(run, j)
    ensures ValidAt(run, i)
  {
    if i == 0 {
      EmptyValid();
    } else {
      ClashFreeValid(run, i - 1);
      StepIff(run, i - 1);
      assert ClashFreeAt(run, i - 1);
    }
  }

  // A run keeps the index valid at every step if and only if no step clashes.
  lemma RunValidIff(run: seq<Entry>)
    ensures (forall i: nat {:trigger ValidAt(run, i)} :: ValidAt(run, i))
       <==> (forall i: nat {:trigger ClashFreeAt(run, i)} :: ClashFreeAt(run, i))
  {
    if forall i: nat {:trigger ClashFreeAt(run, i)} :: ClashFreeAt(run, i) {
      forall i: nat | i <= |run| ensures ValidAt(run, i) { ClashFreeValid(run, i); }
    }
    if forall i: nat {:trigger ValidAt(run, i)} :: ValidAt(run, i) {
      forall i: nat | i < |run| ensures ClashFreeAt(run, i) {
        assert ValidAt(run, i) && ValidAt(run, i + 1);
        StepIff(run, i);
      }
    }
  }

  // ---- the sorted order of a run, equal keys in insertion order

  ghost function StableSort(run: seq<Entry>): seq<Entry> {
    if run == [] then [] else Place(StableSort(run[..|run| - 1]), run[|run| - 1])
  }

  lemma {:induction false} StableSortSorted(run: seq<Entry>)
    ensures Sorted(StableSort(run))
  {
    if run != [] {
      StableSortSorted(run[..|run| - 1]);
      PlaceSorted(StableSort(run[..|run| - 1]), run[|run| - 1]);
    }
  }

  lemma {:induction false} StableSortPerm(run: seq<Entry>, y: Entry)
    ensures Occurs(StableSort(run), y) == Occurs(run, y)
  {
    if run != [] {
      var n := |run| - 1;
      StableSortPerm(run[..n], y);
      PlaceOccurs(StableSort(run[..n]), run[n], y);
      LastOccurs(run, y);
    }
  }

  lemma InRangeOne(e: Entry, lo: int, hi: int)
    ensures InRange([e], lo, hi) == if lo <= e.key <= hi then [e.off] else []
  {
    assert [e][1..] == [];
  }

  // Sorting a run does not reorder the entries of one key.
  lemma {:induction false} StableSortStable(run: seq<Entry>, k: int)
    ensures InRange(StableSort(run), k, k) == InRange(run, k, k)
  {
    if run != [] {
      var n := |run| - 1;
      var e, s := run[n], StableSort(run[..n]);
      StableSortStable(run[..n], k);
      assert run == run[..n] + [e];
      InRangeApp(run[..n], [e], k, k);
      StableSortSorted(run[..n]);
      PlaceOfKey(s, e, k);
    }
  }

  lemma MidOfKey(a: seq<Entry>, e: Entry, b: seq<Entry>, k: int)
    requires e.key == k ==> AllGt(b, k)
    ensures InRange(a + [e] + b, k, k) == InRange(a + b, k, k) + InRange([e], k, k)
  {
    hide InRange;
    InRangeApp(a, b, k, k);
    InRangeApp(a + [e], b, k, k);
    InRangeApp(a, [e], k, k);
    InRangeOne(e, k, k);
    if e.key == k { NoneAbove(b, k, k); }
  }

  lemma PlaceOfKey(s: seq<Entry>, e: Entry, k: int)
    requires Sorted(s)
    ensures InRange(Place(s, e), k, k) == InRange(s, k, k) + InRange([e], k, k)
  {
    var p := EntSlot(s, e.key);
    assert s == s[..p] + s[p..];
    MidOfKey(s[..p], e, s[p..], k);
  }

  // ---- how often a key occurs

  ghost function Copies(es: seq<Entry>, k: int): nat {
    Occurs(Keys(es), k)
  }

  lemma CopiesApp(a: seq<Entry>, b: seq<Entry>, k: int)
    ensures Copies(a + b, k) == Copies(a, k) + Copies(b, k)
  {
    assert Keys(a + b) == Keys(a) + Keys(b);
    OccursApp(Keys(a), Keys(b), k);
  }

  lemma CopiesOne(e: Entry, k: int)
    ensures Copies([e], k) == if e.key == k then 1 else 0
  {
    assert Keys([e]) == [e.key];
  }

  lemma CopiesPlace(s: seq<Entry>, e: Entry, k: int)
    ensures Copies(Place(s, e), k) == Copies(s, k) + (if e.key == k then 1 else 0)
  {
    var p := EntSlot(s, e.key);
    assert s == s[..p] + s[p..];
    CopiesApp(s[..p], s[p..], k);
    CopiesApp(s[..p] + [e], s[p..], k);
    CopiesApp(s[..p], [e], k);
    CopiesOne(e, k);
  }

  lemma {:induction false} CopiesAll(es: seq<Entry>, k: int)
    requires AllLe(es, k) && AllGe(es, k)
    ensures Copies(es, k) == |es|
  {
    if es != [] {
      CopiesAll(es[1..], k);
      assert es == [es[0]] + es[1..];
      CopiesApp([es[0]], es[1..], k);
      CopiesOne(es[0], k);
    }
  }

  ghost predicate HasKey(es: seq<Entry>, k: int) {
    exists i :: 0 <= i < |es| && es[i].key == k
  }

  lemma HasKeyCopies(es: seq<Entry>, k: int)
    requires HasKey(es, k)
    ensures Copies(es, k) >= 1
  {
    var i :| 0 <= i < |es| && es[i].key == k;
    OccursIn(Keys(es), k);
    assert Keys(es)[i] == k;
  }

  lemma HasKeyApp(a: seq<Entry>, b: seq<Entry>, k: int)
    ensures HasKey(a + b, k) <==> HasKey(a, k) || HasKey(b, k)
  {
    if HasKey(a, k) {
      var i :| 0 <= i < |a| && a[i].key == k;
      assert (a + b)[i].key == k;
    }
    if HasKey(b, k) {
      var i :| 0 <= i < |b| && b[i].key == k;
      assert (a + b)[|a| + i].key == k;
    }
    if HasKey(a + b, k) {
      var i :| 0 <= i < |a + b| && (a + b)[i].key == k;
      if i < |a| { assert a[i].key == k; } else { assert b[i - |a|].key == k; }
    }
  }

  lemma HasKeyPlace(s: seq<Entry>, e: Entry, k: int)
    requires HasKey(s, k)
    ensures HasKey(Place(s, e), k)
  {
    var p := EntSlot(s, e.key);
    assert s == s[..p] + s[p..];
    HasKeyApp(s[..p], s[p..], k);
    HasKeyApp(s[..p] + [e], s[p..], k);
    HasKeyApp(s[..p], [e], k);
  }

  // ---- separators are keys of entries right of them

  ghost predicate AnchoredAt(seps: seq<int>, ls: seq<seq<LeafPage>>, i: nat) {
    i < |seps| && i + 1 < |ls| ==> HasKey(Flat(ls[i + 1]), seps[i])
  }

  ghost predicate AnchoredKids(seps: seq<int>, ls: seq<seq<LeafPage>>) {
    forall i: nat {:trigger AnchoredAt(seps, ls, i)} :: AnchoredAt(seps, ls, i)
  }

  ghost predicate Anchored(t: Tree)
    decreases t
  {
    t.Node? ==>
      AnchoredKids(t.seps, Each(t.kids)) && forall i :: 0 <= i < |t.kids| ==> Anchored(t.kids[i])
  }

  ghost predicate AllAnchored(ts: seq<Tree>) {
    forall i :: 0 <= i < |ts| ==> Anchored(ts[i])
  }

  ghost predicate GAnchored(g: Grown) {
    match g
    case Kept(t, _) => Anchored(t)
    case Split(l, mk, r, _) => Anchored(l) && Anchored(r) && HasKey(Ents(r), mk)
  }

  lemma WithAllAnchored(kids: seq<Tree>, p: nat, r: Tree)
    requires AllAnchored(kids) && p < |kids| && Anchored(r)
    ensures AllAnchored(With(kids, p, r))
  {
    var ks := With(kids, p, r);
    forall i | 0 <= i < |ks| ensures Anchored(ks[i]) {
      if i > p + 1 { assert ks[i] == kids[i - 1]; }
    }
  }

  lemma AnchoredNode(pg: nat, ss: seq<int>, ks: seq<Tree>)
    requires AnchoredKids(ss, Each(ks)) && AllAnchored(ks)
    ensures Anchored(Node(pg, ss, ks))
  {
  }

  lemma SliceAnchored(ss: seq<int>, ls: seq<seq<LeafPage>>, m: nat)
    requires AnchoredKids(ss, ls) && |ls| == |ss| + 1 && m < |ss|
    ensures AnchoredKids(ss[..m], ls[..m + 1]) && AnchoredKids(ss[m + 1..], ls[m + 1..])
  {
    var sl, ll, sr, lr := ss[..m], ls[..m + 1], ss[m + 1..], ls[m + 1..];
    forall i: nat ensures AnchoredAt(sl, ll, i) { assert AnchoredAt(ss, ls, i); }
    forall i: nat ensures AnchoredAt(sr, lr, i) { assert AnchoredAt(ss, ls, m + 1 + i); }
  }

  lemma HasKeyJoin(ls: seq<seq<LeafPage>>, i: nat, k: int)
    requires i < |ls| && HasKey(Flat(ls[i]), k)
    ensures HasKey(Flat(Join(ls)), k)
  {
    JoinAt(ls, i);
    FlatMid(Join(ls[..i]), ls[i], Join(ls[i + 1..]));
    HasKeyApp(Flat(Join(ls[..i])), Flat(ls[i]), k);
    HasKeyApp(Flat(Join(ls[..i])) + Flat(ls[i]), Flat(Join(ls[i + 1..])), k);
  }

  lemma CutAnchored(pg: nat, ss: seq<int>, ks: seq<Tree>, np: nat)
    requires |ks| == |ss| + 1 && AnchoredKids(ss, Each(ks)) && AllAnchored(ks)
    ensures GAnchored(Cut(pg, ss, ks, np))
  {
    if |ss| > INT_MAX {
      var m := |ss| / 2;
      EachCut(ks, m + 1);
      SliceAnchored(ss, Each(ks), m);
      AnchoredNode(pg, ss[..m], ks[..m + 1]);
      AnchoredNode(np, ss[m + 1..], ks[m + 1..]);
      assert AnchoredAt(ss, Each(ks), m);
      HasKeyJoin(Each(ks)[m + 1..], 0, ss[m]);
      LeavesNode(Node(np, ss[m + 1..], ks[m + 1..]));
    } else {
      AnchoredNode(pg, ss, ks);
    }
  }

  lemma SwapAnchored(seps: seq<int>, ls: seq<seq<LeafPage>>, ci: nat, e: Entry, l: seq<LeafPage>)
    requires AnchoredKids(seps, ls) && ci < |ls| && Flat(l) == Place(Flat(ls[ci]), e)
    ensures AnchoredKids(seps, ls[ci := l])
  {
    var ks := ls[ci := l];
    forall i: nat ensures AnchoredAt(seps, ks, i) {
      assert AnchoredAt(seps, ls, i);
      if i + 1 == ci && i < |seps| { HasKeyPlace(Flat(ls[ci]), e, seps[i]); }
    }
  }

  // The least key of a child stays in its left half.
  lemma LeastStays(l: seq<Entry>, r: seq<Entry>, mk: int, k: int)
    requires HasKey(l + r, k) && l != [] && AllLe(l, mk) && AllGe(r, mk) && AllGe(l, k)
    ensures HasKey(l, k)
  {
    HasKeyApp(l, r, k);
    if HasKey(r, k) {
      var i :| 0 <= i < |r| && r[i].key == k;
      assert mk <= k && l[0].key == k;
    }
  }

  lemma GrowAnchored(seps: seq<int>, ls: seq<seq<LeafPage>>, ci: nat, l: seq<LeafPage>, mk: int, r: seq<LeafPage>)
    requires AnchoredKids(seps, ls) && |ls| == |seps| + 1 && ci < |ls| && Slot(seps, mk) == ci
    requires ci > 0 ==> HasKey(Flat(l), seps[ci - 1])
    requires HasKey(Flat(r), mk)
    ensures AnchoredKids(SepsWith(seps, mk), With(ls[ci := l], ci, r))
  {
    var ss, ks := SepsWith(seps, mk), With(ls[ci := l], ci, r);
    forall i: nat ensures AnchoredAt(ss, ks, i) {
      if i < |ss| {
        GrownAt(seps, ls, ci, l, mk, r, i);
        GrownAt(seps, ls, ci, l, mk, r, i + 1);
        assert AnchoredAt(seps, ls, i) && (i > 0 ==> AnchoredAt(seps, ls, i - 1));
      }
    }
  }

  lemma LeafAnchored(p: LeafPage, e: Entry, np: nat)
    ensures GAnchored(LeafIns(p, e, np))
  {
    var g := LeafIns(p, e, np);
    if g.Split? {
      FlatOne(g.r.page);
      assert g.r.page.ents[0].key == g.mk;
    }
  }

  lemma NodeAnchored(t: Tree, h: nat, e: Entry, np: nat, ci: nat, g: Grown)
    requires t.Node? && ci == Slot(t.seps, e.key) && OrderedKids(t.seps, Each(t.kids))
    requires AnchoredKids(t.seps, Each(t.kids)) && AllAnchored(t.kids)
    requires Shape(t.kids[ci], h, false) && Ordered(t.kids[ci])
    requires g == Ins(t.kids[ci], e, np) && GLeaves(g) == Wanted(t.kids[ci], e, np)
    requires GOrdered(g) && GAnchored(g) && GShape(g, h, false)
    requires g.Split? ==> Slot(t.seps, g.mk) == ci
    ensures GAnchored(Ins(t, e, np))
  {
    var seps, kids, ls := t.seps, t.kids, Each(t.kids);
    WantedEnts(kids[ci], h, false, e, np);
    match g {
      case Kept(c, _) =>
        SwapAnchored(seps, ls, ci, e, Leaves(c));
        EachSwap(kids, ci, c);
        assert AllAnchored(kids[ci := c]);
        AnchoredNode(t.pg, seps, kids[ci := c]);
      case Split(l, mk, r, np1) =>
        FlatApp(Leaves(l), Leaves(r));
        if ci > 0 {
          var k := seps[ci - 1];
          assert OrderedAt(seps, ls, ci - 1) && AnchoredAt(seps, ls, ci - 1);
          HasKeyPlace(Flat(ls[ci]), e, k);
          HalvesBounds(Flat(ls[ci]), e, Leaves(l), Leaves(r), k);
          Occupied(l, h);
          LeastStays(Ents(l), Ents(r), mk, k);
        }
        GrowAnchored(seps, ls, ci, Leaves(l), mk, Leaves(r));
        EachSwap(kids, ci, l);
        EachWith(kids[ci := l], ci, r);
        assert AllAnchored(kids[ci := l]);
        WithAllAnchored(kids[ci := l], ci, r);
        CutAnchored(t.pg, SepsWith(seps, mk), With(kids[ci := l], ci, r), np1);
    }
  }

  lemma {:induction false} InsAnchored(t: Tree, h: nat, root: bool, e: Entry, np: nat)
    requires Shape(t, h, root) && Ordered(t) && Anchored(t) && !Clash(t, e)
    ensures GAnchored(Ins(t, e, np))
    decreases h
  {
    if t.Leaf? {
      LeafAnchored(t.page, e, np);
    } else {
      var ci := Slot(t.seps, e.key);
      var c := t.kids[ci];
      var g := Ins(c, e, np);
      InsAnchored(c, h - 1, false, e, np);
      InsOrdered(c, h - 1, false, e, np);
      InsShape(c, h - 1, false, e, np);
      PromotedIs(c, e, np);
      if g.Split? { SlotOfPromoted(t.seps, Each(t.kids), c, h - 1, ci, e, g.mk); }
      assert AllAnchored(t.kids);
      NodeAnchored(t, h - 1, e, np, ci, g);
    }
  }

  // ---- a clash needs 129 copies of one key

  lemma CopiesTwo(ls: seq<seq<LeafPage>>, i: nat, k: int)
    requires i < |ls|
    ensures Copies(Flat(ls[i]), k) <= Copies(Flat(Join(ls)), k)
    ensures i + 1 < |ls| ==> Copies(Flat(ls[i]), k) + Copies(Flat(ls[i + 1]), k) <= Copies(Flat(Join(ls)), k)
  {
    JoinAt(ls, i);
    var a, d := Join(ls[..i]), Join(ls[i + 1..]);
    FlatMid(a, ls[i], d);
    CopiesApp(Flat(a) + Flat(ls[i]), Flat(d), k);
    CopiesApp(Flat(a), Flat(ls[i]), k);
    if i + 1 < |ls| {
      JoinAt(ls[i + 1..], 0);
      var d' := Join(ls[i + 1..][1..]);
      assert ls[i + 1..][..0] == [];
      FlatApp(ls[i + 1], d');
      CopiesApp(Flat(ls[i + 1]), Flat(d'), k);
      assert Join(ls[i + 1..]) == ls[i + 1] + d';
    }
  }

  // The half a page splits off consists of copies of the promoted key when nothing exceeds it.
  lemma HalfOfCopies(c: Tree, h: nat, e: Entry, k: int)
    requires Shape(c, h, false) && Ordered(c) && !Clash(c, e) && Promoted(c, e) == Some(k)
    requires AllLe(Ents(c), k) && e.key <= k
    ensures 128 <= Copies(Ents(c), k) + (if e.key == k then 1 else 0)
  {
    var g := Ins(c, e, 0);
    PromotedIs(c, e, 0);
    InsOrdered(c, h, false, e, 0);
    InsShape(c, h, false, e, 0);
    WantedEnts(c, h, false, e, 0);
    HalvesBounds(Ents(c), e, Leaves(g.l), Leaves(g.r), k);
    Occupied(g.r, h);
    CopiesAll(Ents(g.r), k);
    FlatApp(Leaves(g.l), Leaves(g.r));
    CopiesApp(Ents(g.l), Ents(g.r), k);
    CopiesPlace(Ents(c), e, k);
  }

  lemma ClashHereMany(t: Tree, h: nat, e: Entry, ci: nat)
    requires t.Node? && ci == Slot(t.seps, e.key) && OrderedKids(t.seps, Each(t.kids))
    requires AnchoredKids(t.seps, Each(t.kids)) && Shape(t.kids[ci], h, false) && Ordered(t.kids[ci])
    requires !Clash(t.kids[ci], e) && ci < |t.seps| && Promoted(t.kids[ci], e) == Some(t.seps[ci])
    ensures Copies(Place(Ents(t), e), t.seps[ci]) >= 129
  {
    var k, ls := t.seps[ci], Each(t.kids);
    assert OrderedAt(t.seps, ls, ci) && AnchoredAt(t.seps, ls, ci);
    HalfOfCopies(t.kids[ci], h, e, k);
    HasKeyCopies(Flat(ls[ci + 1]), k);
    CopiesTwo(ls, ci, k);
    LeavesNode(t);
    CopiesPlace(Ents(t), e, k);
  }

  lemma {:induction false} ClashMany(t: Tree, h: nat, root: bool, e: Entry) returns (k: int)
    requires Shape(t, h, root) && Ordered(t) && Anchored(t) && Clash(t, e)
    ensures Copies(Place(Ents(t), e), k) >= 129
    decreases h
  {
    var ci := Slot(t.seps, e.key);
    if Clash(t.kids[ci], e) {
      k := ClashMany(t.kids[ci], h - 1, false, e);
      CopiesPlace(Ents(t.kids[ci]), e, k);
      CopiesPlace(Ents(t), e, k);
      CopiesTwo(Each(t.kids), ci, k);
      LeavesNode(t);
    } else {
      ClashHereMany(t, h - 1, e, ci);
      k := t.seps[ci];
    }
  }

  // ---- a key not below any other never clashes

  lemma TopSlot(seps: seq<int>, ls: seq<seq<LeafPage>>, k: int)
    requires OrderedKids(seps, ls) && AllLe(Flat(Join(ls)), k)
    requires forall i :: 0 <= i < |ls| ==> Flat(ls[i]) != []
    ensures Slot(seps, k) == |seps| && AllLe(Flat(ls[|seps|]), k)
  {
    KidBound(ls, |seps|, k);
    forall i | 0 <= i < |seps| ensures seps[i] <= k {
      assert OrderedAt(seps, ls, i);
      KidBound(ls, i + 1, k);
      assert seps[i] <= Flat(ls[i + 1])[0].key <= k;
    }
  }

  lemma {:induction false} TopNoClash(t: Tree, h: nat, root: bool, e: Entry)
    requires Shape(t, h, root) && Ordered(t) && AllLe(Ents(t), e.key)
    ensures !Clash(t, e)
    decreases h
  {
    if t.Node? {
      EachOccupied(t.kids, h - 1);
      LeavesNode(t);
      TopSlot(t.seps, Each(t.kids), e.key);
      TopNoClash(t.kids[|t.seps|], h - 1, false, e);
    }
  }

  // ---- safe runs

  // The new key is at least every earlier one, or no key occurs more than 128 times.
  ghost predicate SafeStep(prev: seq<Entry>, e: Entry) {
    AllLe(prev, e.key) || forall k :: Copies(prev + [e], k) <= 128
  }

  ghost predicate SafeRun(run: seq<Entry>) {
    forall i :: 0 <= i < |run| ==> SafeStep(run[..i], run[i])
  }

  lemma {:induction false} StableSortCopies(run: seq<Entry>, k: int)
    ensures Copies(StableSort(run), k) == Copies(run, k)
  {
    if run != [] {
      var n := |run| - 1;
      StableSortCopies(run[..n], k);
      CopiesPlace(StableSort(run[..n]), run[n], k);
      assert run == run[..n] + [run[n]];
      CopiesApp(run[..n], [run[n]], k);
      CopiesOne(run[n], k);
    }
  }

  lemma {:induction false} StableSortLe(run: seq<Entry>, k: int)
    requires AllLe(run, k)
    ensures AllLe(StableSort(run), k)
  {
    if run != [] {
      var n := |run| - 1;
      StableSortLe(run[..n], k);
      PlaceAll(StableSort(run[..n]), run[n], k);
    }
  }

  lemma InsertAnchored(x: Index, e: Entry)
    requires Valid(x) && Anchored(x.root) && !Clash(x.root, e)
    ensures Anchored(Insert(x, e).root)
  {
    InsAnchored(x.root, x.h, true, e, x.np);
    match Ins(x.root, e, x.np)
    case Kept(_, _) =>
    case Split(l, mk, r, np) =>
      RootLeaves(np, mk, l, r);
      var ls := Each([l, r]);
      forall i: nat ensures AnchoredAt([mk], ls, i) {}
  }

  lemma StepNoClash(prev: seq<Entry>, e: Entry, x: Index)
    requires SafeStep(prev, e) && Valid(x) && Anchored(x.root) && Ents(x.root) == StableSort(prev)
    ensures !Clash(x.root, e)
  {
    if AllLe(prev, e.key) {
      StableSortLe(prev, e.key);
      TopNoClash(x.root, x.h, true, e);
    } else if Clash(x.root, e) {
      var k := ClashMany(x.root, x.h, true, e);
      StableSortCopies(prev, k);
      CopiesPlace(Ents(x.root), e, k);
      CopiesApp(prev, [e], k);
      CopiesOne(e, k);
      assert false;
    }
  }

  // After a safe run the index is valid, and its leaves hold the run's pairs in sorted order, equal
  // keys in insertion order.
  lemma {:induction false} SafeRunValid(run: seq<Entry>)
    requires SafeRun(run)
    ensures Valid(After(run)) && Anchored(After(run).root) && Ents(After(run).root) == StableSort(run)
  {
    if run == [] {
      EmptyValid();
      FlatOne(LeafPage(1, []));
      assert Leaves(Empty.root) == [LeafPage(1, [])];
    } else {
      var n := |run| - 1;
      var prev, e := run[..n], run[n];
      forall i | 0 <= i < n ensures SafeStep(prev[..i], prev[i]) {
        assert prev[..i] == run[..i];
        assert SafeStep(run[..i], run[i]);
      }
      SafeRunValid(prev);
      assert SafeStep(run[..n], run[n]);
      StepNoClash(prev, e, After(prev));
      NoClashValid(After(prev), e);
      InsertAnchored(After(prev), e);
    }
  }

  // After a safe run every range query returns exactly the inserted offsets in range, in key order,
  // equal keys in insertion order, cut to capacity.
  lemma SafeRunQuery(run: seq<Entry>, lo: int, hi: int)
    requires SafeRun(run)
    ensures Query(After(run), lo, hi) == Cap(InRange(StableSort(run), lo, hi))
  {
    SafeRunValid(run);
    QueryRight(After(run), lo, hi);
  }

  function Offs(es: seq<Entry>): (r: seq<int>)
    ensures |r| == |es| && forall i :: 0 <= i < |es| ==> r[i] == es[i].off
  {
    seq(|es|, i requires 0 <= i < |es| => es[i].off)
  }

  lemma OffsSnoc(es: seq<Entry>, e: Entry)
    ensures Offs(es + [e]) == Offs(es) + [e.off]
  {
  }

  // What a range means: the offsets of just the entries whose key is in it, in the order of the entries.
  lemma {:induction false} InRangeSelects(es: seq<Entry>, lo: int, hi: int) returns (kept: seq<Entry>, at: seq<nat>)
    ensures Selects((e: Entry) => lo <= e.key <= hi, es, kept, at) && InRange(es, lo, hi) == Offs(kept)
  {
    var p := (e: Entry) => lo <= e.key <= hi;
    if es == [] {
      kept, at := [], [];
    } else {
      hide InRange, Selects, Offs;
      var init, e := es[..|es| - 1], es[|es| - 1];
      kept, at := InRangeSelects(init, lo, hi);
      assert es == init + [e];
      SelectsMore(p, init, e, kept, at);
      InRangeApp(init, [e], lo, hi);
      InRangeOne(e, lo, hi);
      OffsSnoc(kept, e);
      kept, at := if p(e) then kept + [e] else kept, if p(e) then at + [|init|] else at;
    }
  }

  // Up to 131072 of them are all returned, and of more the first 131072.
  lemma SafeRunWhole(run: seq<Entry>, lo: int, hi: int)
    requires SafeRun(run)
    ensures var offs := InRange(StableSort(run), lo, hi);
            Query(After(run), lo, hi) == if |offs| <= 131072 then offs else offs[..131072]
  {
    SafeRunQuery(run, lo, hi);
  }

  // A lookup returns the offsets inserted under the key, in insertion order.
  lemma SafeRunLookup(run: seq<Entry>, k: int)
    requires SafeRun(run)
    ensures Query(After(run), k, k) == Cap(InRange(run, k, k))
  {
    SafeRunQuery(run, k, k);
    StableSortStable(run, k);
  }

  lemma CopiesPrefix(run: seq<Entry>, i: nat, k: int)
    requires i <= |run|
    ensures Copies(run[..i], k) <= Copies(run, k)
  {
    assert run == run[..i] + run[i..];
    CopiesApp(run[..i], run[i..], k);
  }

  // Runs in which no key occurs more than 128 times are safe; distinct keys are the case of 1.
  lemma FewCopiesSafe(run: seq<Entry>)
    requires forall k :: Copies(run, k) <= 128
    ensures SafeRun(run)
  {
    forall i | 0 <= i < |run| ensures SafeStep(run[..i], run[i]) {
      assert run[..i] + [run[i]] == run[..i + 1];
      forall k ensures Copies(run[..i] + [run[i]], k) <= 128 { CopiesPrefix(run, i + 1, k); }
    }
  }

  // Runs in nondecreasing key order are safe, with any number of equal keys.
  lemma AscendingSafe(run: seq<Entry>)
    requires Sorted(run)
    ensures SafeRun(run)
  {
    forall i | 0 <= i < |run| ensures SafeStep(run[..i], run[i]) {
      assert AllLe(run[..i], run[i].key);
    }
  }
}
