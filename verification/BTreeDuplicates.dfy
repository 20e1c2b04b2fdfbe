// How many equal keys an index bears: 128 of each in any order, and no more.

module BTreeDuplicates {
  import opened BTreeModel
  import opened BTreeOrder
  import opened BTreeIndex
  import opened BTreeRuns

  // n pairs of one key.
  ghost function Copy(key: int, n: nat): (r: seq<Entry>)
    ensures |r| == n && forall i :: 0 <= i < n ==> r[i].key == key
  {
    if n == 0 then [] else Copy(key, n - 1) + [Entry(key, n - 1)]
  }

  ghost function Single(a: seq<Entry>): Index {
    Index(Leaf(LeafPage(1, a)), 0, [LeafPage(1, a)], 2, |a|)
  }

  lemma PlaceLast(a: seq<Entry>, e: Entry)
    requires AllLe(a, e.key)
    ensures Place(a, e) == a + [e]
  {
    EntSlotUnique(a, e.key, |a|);
  }

  lemma AppendSingle(a: seq<Entry>, e: Entry)
    requires AllLe(a, e.key) && |a| < 255
    ensures Insert(Single(a), e) == Single(a + [e])
  {
    PlaceLast(a, e);
    var p := LeafPage(1, a);
    assert IndexOf([p], p) == 0;
    assert Leaves(Leaf(LeafPage(1, a + [e]))) == [LeafPage(1, a + [e])];
    assert Splice([p], 0, [LeafPage(1, a + [e])]) == [LeafPage(1, a + [e])];
  }

  lemma CopyNext(r: seq<Entry>, key: int, n: nat)
    ensures r + Copy(key, n) + [Entry(key, n)] == r + Copy(key, n + 1)
    ensures r + Copy(key, 0) == r
  {
  }

  lemma FillStep(r: seq<Entry>, s: seq<Entry>, e: Entry)
    requires After(r) == Single(s) && AllLe(s, e.key) && |s| < 255
    ensures After(r + [e]) == Single(s + [e])
  {
    AfterApp(r, e);
    AppendSingle(s, e);
  }

  lemma FillMore(run: seq<Entry>, a: seq<Entry>, key: int, n: nat)
    requires After(run + Copy(key, n)) == Single(a + Copy(key, n)) && AllLe(a, key) && |a| + n < 255
    ensures After(run + Copy(key, n + 1)) == Single(a + Copy(key, n + 1))
  {
    CopyNext(run, key, n);
    CopyNext(a, key, n);
    AllApp(a, Copy(key, n), key);
    FillStep(run + Copy(key, n), a + Copy(key, n), Entry(key, n));
  }

  lemma FillNone(run: seq<Entry>, a: seq<Entry>, key: int)
    requires After(run) == Single(a)
    ensures After(run + Copy(key, 0)) == Single(a + Copy(key, 0))
  {
    CopyNext(run, key, 0);
    CopyNext(a, key, 0);
  }

  lemma FillSingle(run: seq<Entry>, a: seq<Entry>, key: int, n: nat)
    requires After(run) == Single(a) && AllLe(a, key) && |a| + n <= 255
    ensures After(run + Copy(key, n)) == Single(a + Copy(key, n))
  {
    FillNone(run, a, key);
    var i := 0;
    while i < n
      invariant i <= n && After(run + Copy(key, i)) == Single(a + Copy(key, i))
    {
      FillMore(run, a, key, i);
      i := i + 1;
    }
  }

  // Two leaves: m smaller keys and 128 copies of 0 on the left, one copy of 0 and 127 larger keys right.
  ghost function Right(): seq<Entry> { [Entry(0, 128)] + Copy(2, 127) }

  ghost function Two(m: nat): Index {
    var l, r := LeafPage(1, Copy(-1, m) + Copy(0, 128)), LeafPage(2, Right());
    Index(Node(3, [0], [Leaf(l), Leaf(r)]), 1, [l, r], 4, 256 + m)
  }

  ghost function Start(): seq<Entry> { Copy(0, 129) + Copy(2, 127) }

  lemma CutAt<T>(a: seq<T>, x: T, d: seq<T>)
    ensures var s := a + [x] + d; s[..|a|] == a && s[|a|..] == [x] + d && s[|a|] == x
  {
  }

  lemma CopySnoc(k: int, m: nat)
    ensures Copy(k, m + 1) == Copy(k, m) + [Entry(k, m)]
  {
  }

  lemma StartHalves()
    ensures |Start()| == 256 && Start()[..128] == Copy(0, 128) && Start()[128..] == Right()
    ensures Start()[128].key == 0
  {
    CopySnoc(0, 128);
    hide Copy;
    CutAt(Copy(0, 128), Entry(0, 128), Copy(2, 127));
  }

  lemma HalfFull()
    ensures After(Copy(0, 129)) == Single(Copy(0, 129))
  {
    hide Insert;
    FillSingle([], [], 0, 129);
    assert [] + Copy(0, 129) == Copy(0, 129);
  }

  lemma Full()
    ensures After(Copy(0, 129) + Copy(2, 126)) == Single(Copy(0, 129) + Copy(2, 126))
  {
    hide Insert;
    var a := Copy(0, 129);
    HalfFull();
    assert AllLe(a, 2) && |a| == 129;
    FillSingle(a, a, 2, 126);
  }

  lemma SplitSingle(a: seq<Entry>, e: Entry, l: LeafPage, mk: int, r: LeafPage)
    requires LeafIns(LeafPage(1, a), e, 2) == Split(Leaf(l), mk, Leaf(r), 3)
    ensures Insert(Single(a), e) == Index(Node(3, [mk], [Leaf(l), Leaf(r)]), 1, [l, r], 4, |a| + 1)
  {
    var p := LeafPage(1, a);
    assert IndexOf([p], p) == 0;
    assert Splice([p], 0, [l] + [r]) == [l, r];
  }

  lemma FirstSplit()
    ensures After(Start()) == Two(0)
  {
    hide After, Insert, Repl;
    Full();
    var a, e := Copy(0, 129) + Copy(2, 126), Entry(2, 126);
    AfterApp(a, e);
    CopyNext(Copy(0, 129), 2, 126);
    PlaceLast(a, e);
    StartHalves();
    SplitSingle(a, e, LeafPage(1, Copy(0, 128)), 0, LeafPage(2, Right()));
    assert Copy(-1, 0) + Copy(0, 128) == Copy(0, 128);
  }

  lemma PlaceSmall(m: nat)
    ensures Place(Copy(-1, m) + Copy(0, 128), Entry(-1, m)) == Copy(-1, m + 1) + Copy(0, 128)
  {
    var e := Entry(-1, m);
    PlaceBefore(Copy(-1, m), Copy(0, 128), e);
    PlaceLast(Copy(-1, m), e);
  }

  lemma LeftSlot(k: int)
    ensures k < 0 ==> Slot([0], k) == 0
    ensures k == 0 ==> Slot([0], k) == 1
    ensures k == 1 ==> Slot([0, 0], k) == 2
  {
    assert [0][0] == 0 && [0, 0][0] == 0 && [0, 0][1] == 0;
  }

  // An insertion into leaf l, child ci of the root and place i of the chain, which has room.
  lemma KeptAt(x: Index, ci: nat, e: Entry, i: nat, l: LeafPage, l': LeafPage)
    requires x.root.Node? && |x.root.kids| == |x.root.seps| + 1 && ci == Slot(x.root.seps, e.key)
    requires x.root.kids[ci] == Leaf(l) && |l.ents| < LEAF_MAX && l' == LeafPage(l.pg, Place(l.ents, e))
    requires IndexOf(x.chain, l) == i
    ensures Insert(x, e) ==
            Index(Node(x.root.pg, x.root.seps, x.root.kids[ci := Leaf(l')]), x.h, Splice(x.chain, i, [l']),
                  x.np, x.nkeys + 1)
  {
    assert Ins(Leaf(l), e, x.np) == Kept(Leaf(l'), x.np);
    assert Target(x.root, e) == Target(Leaf(l), e) == l;
    assert Repl(l, e, x.np) == [l'];
  }

  lemma GrowLeft(m: nat)
    requires m < 127
    ensures Insert(Two(m), Entry(-1, m)) == Two(m + 1)
  {
    LeftSlot(-1);
    PlaceSmall(m);
    var x := Two(m);
    var l, r, l' := x.chain[0], x.chain[1], LeafPage(1, Copy(-1, m + 1) + Copy(0, 128));
    KeptAt(x, 0, Entry(-1, m), 0, l, l');
    assert Splice(x.chain, 0, [l']) == [l', r];
    assert [Leaf(l), Leaf(r)][0 := Leaf(l')] == [Leaf(l'), Leaf(r)];
  }

  lemma FillLeftMore(m: nat)
    requires m < 127 && After(Start() + Copy(-1, m)) == Two(m)
    ensures After(Start() + Copy(-1, m + 1)) == Two(m + 1)
  {
    AfterApp(Start() + Copy(-1, m), Entry(-1, m));
    CopyNext(Start(), -1, m);
    GrowLeft(m);
  }

  lemma FillLeft(m: nat)
    requires m <= 127
    ensures After(Start() + Copy(-1, m)) == Two(m)
  {
    FirstSplit();
    CopyNext(Start(), -1, 0);
    var i := 0;
    while i < m
      invariant i <= m && After(Start() + Copy(-1, i)) == Two(i)
    {
      FillLeftMore(i);
      i := i + 1;
    }
  }

  // The left leaf splits, and its 128 copies of 0 land right of the leaf they should precede.
  ghost function Three(top: seq<Entry>, n: nat): Index {
    var a, b, c := LeafPage(1, Copy(-1, 128)), LeafPage(2, Right()), LeafPage(4, top);
    Index(Node(3, [0, 0], [Leaf(a), Leaf(b), Leaf(c)]), 1, [a, c, b], 5, n)
  }

  lemma SecondSplit()
    ensures Insert(Two(127), Entry(-1, 127)) == Three(Copy(0, 128), 384)
  {
    hide Copy;
    LeftSlot(-1);
    LeftSlot(0);
    PlaceSmall(127);
    var x := Two(127);
    var l, r := x.chain[0], x.chain[1];
    var s := Copy(-1, 128) + Copy(0, 128);
    assert s[..128] == Copy(-1, 128) && s[128..] == Copy(0, 128);
    var a, c := LeafPage(1, Copy(-1, 128)), LeafPage(4, Copy(0, 128));
    assert LeafIns(l, Entry(-1, 127), 4) == Split(Leaf(a), 0, Leaf(c), 5);
    assert SepsWith([0], 0) == [0, 0];
    assert [Leaf(l), Leaf(r)][0 := Leaf(a)] == [Leaf(a), Leaf(r)];
    assert With([Leaf(a), Leaf(r)], 1, Leaf(c)) == [Leaf(a), Leaf(r), Leaf(c)];
    assert Target(x.root, Entry(-1, 127)) == l;
    assert IndexOf(x.chain, l) == 0;
    assert Splice(x.chain, 0, [a] + [c]) == [a, c, r];
  }

  lemma ThirdInsert()
    ensures Insert(Three(Copy(0, 128), 384), Entry(1, 0)) == Three(Copy(0, 128) + [Entry(1, 0)], 385)
  {
    hide Copy;
    LeftSlot(1);
    var e := Entry(1, 0);
    PlaceLast(Copy(0, 128), e);
    var x := Three(Copy(0, 128), 384);
    var a, c, b, c' := x.chain[0], x.chain[1], x.chain[2], LeafPage(4, Copy(0, 128) + [e]);
    KeptAt(x, 2, e, 1, c, c');
    assert Splice(x.chain, 1, [c']) == [a, c', b];
    assert [Leaf(a), Leaf(b), Leaf(c)][2 := Leaf(c')] == [Leaf(a), Leaf(b), Leaf(c')];
  }

  // 129 copies of 0, 127 copies of 2, 128 copies of -1, and one 1.
  ghost function BadRun(): seq<Entry> { Start() + Copy(-1, 128) + [Entry(1, 0)] }

  lemma BadIndex()
    ensures After(BadRun()) == Three(Copy(0, 128) + [Entry(1, 0)], 385)
  {
    FillLeft(127);
    AfterApp(Start() + Copy(-1, 127), Entry(-1, 127));
    CopyNext(Start(), -1, 127);
    SecondSplit();
    AfterApp(Start() + Copy(-1, 128), Entry(1, 0));
    ThirdInsert();
  }

  lemma {:induction false} ScanSkip(a: seq<Entry>, b: seq<Entry>, lo: int, hi: int)
    requires AllLt(a, lo) && lo <= hi
    ensures Scan(a + b, lo, hi) == Scan(b, lo, hi)
  {
    if a == [] {
      assert a + b == b;
    } else {
      assert (a + b)[1..] == a[1..] + b;
      ScanSkip(a[1..], b, lo, hi);
    }
  }

  lemma {:induction false} ScanTake(a: seq<Entry>, b: seq<Entry>, k: int)
    requires AllLe(a, k) && AllGe(a, k)
    ensures |Scan(a + b, k, k)| == |a| + |Scan(b, k, k)|
  {
    if a == [] {
      assert a + b == b;
    } else {
      assert (a + b)[1..] == a[1..] + b;
      ScanTake(a[1..], b, k);
    }
  }

  lemma FlatThree(a: LeafPage, c: LeafPage, b: LeafPage)
    ensures Flat([a, c, b]) == a.ents + (c.ents + b.ents)
  {
    assert [a, c, b] == [a] + [c] + [b];
    FlatMid([a], [c], [b]);
    FlatOne(a);
    FlatOne(c);
    FlatOne(b);
  }

  lemma ScanThree(a: seq<Entry>, c: seq<Entry>, e: Entry, b: seq<Entry>, k: int)
    requires AllLt(a, k) && AllLe(c, k) && AllGe(c, k) && e.key > k
    ensures |Scan(a + (c + [e] + b), k, k)| == |c|
  {
    ScanSkip(a, c + [e] + b, k, k);
    assert c + [e] + b == c + ([e] + b);
    ScanTake(c, [e] + b, k);
  }

  lemma ThreeQuery(top: seq<Entry>, n: nat)
    requires n > 0
    ensures Query(Three(top, n), 0, 0) == Cap(Scan(Copy(-1, 128) + (top + Right()), 0, 0))
  {
    var x := Three(top, n);
    var a, c, b := x.chain[0], x.chain[1], x.chain[2];
    assert [0, 0][0] == 0;
    assert LowSlot([0, 0], 0) == 0;
    assert x.root.kids[0] == Leaf(a);
    assert FindLeaf(x.root, 0) == FindLeaf(Leaf(a), 0) == a;
    assert IndexOf(x.chain, a) == 0;
    assert x.chain[0..] == x.chain;
    FlatThree(a, c, b);
  }

  // A lookup of 0 after the bad run finds 128 of the 129 pairs inserted.
  lemma BadLookup()
    ensures |Query(After(BadRun()), 0, 0)| == 128
  {
    BadIndex();
    ThreeQuery(Copy(0, 128) + [Entry(1, 0)], 385);
    BadScan();
  }

  lemma BadScan()
    ensures |Scan(Copy(-1, 128) + (Copy(0, 128) + [Entry(1, 0)] + Right()), 0, 0)| == 128
  {
    ScanThree(Copy(-1, 128), Copy(0, 128), Entry(1, 0), Right(), 0);
  }

  lemma CopiesCopy(key: int, n: nat, k: int)
    ensures Copies(Copy(key, n), k) == if k == key then n else 0
  {
    if k == key {
      CopiesAll(Copy(key, n), k);
    } else if Copies(Copy(key, n), k) > 0 {
      OccursIn(Keys(Copy(key, n)), k);
      assert false;
    }
  }

  lemma BadCopies(k: int)
    ensures Copies(BadRun(), k) <= 129
  {
    CopiesCopy(0, 129, k);
    CopiesCopy(2, 127, k);
    CopiesCopy(-1, 128, k);
    CopiesOne(Entry(1, 0), k);
    CopiesApp(Copy(0, 129), Copy(2, 127), k);
    CopiesApp(Start(), Copy(-1, 128), k);
    CopiesApp(Start() + Copy(-1, 128), [Entry(1, 0)], k);
  }

  lemma {:induction false} InRangeCopies(es: seq<Entry>, k: int)
    ensures |InRange(es, k, k)| == Copies(es, k)
  {
    if es != [] {
      InRangeCopies(es[1..], k);
      assert es == [es[0]] + es[1..];
      CopiesApp([es[0]], es[1..], k);
      CopiesOne(es[0], k);
    }
  }

  lemma BadExpected()
    ensures |InRange(BadRun(), 0, 0)| >= 129
  {
    InRangeCopies(BadRun(), 0);
    CopiesCopy(0, 129, 0);
    CopiesApp(Copy(0, 129), Copy(2, 127), 0);
    CopiesApp(Start(), Copy(-1, 128), 0);
    CopiesApp(Start() + Copy(-1, 128), [Entry(1, 0)], 0);
  }

  ghost predicate AtMost(run: seq<Entry>, m: nat) {
    forall k :: Copies(run, k) <= m
  }

  ghost predicate Answers(run: seq<Entry>, k: int) {
    Query(After(run), k, k) == Cap(InRange(run, k, k))
  }

  lemma AtMostMore(run: seq<Entry>, a: nat, b: nat)
    requires AtMost(run, a) && a <= b
    ensures AtMost(run, b)
  {
  }

  lemma EnoughAnswers(m: nat, run: seq<Entry>, k: int)
    requires m <= 128 && AtMost(run, m)
    ensures Answers(run, k)
  {
    FewCopiesSafe(run);
    SafeRunLookup(run, k);
  }

  lemma ShorterDiffers(q: seq<int>, r: seq<int>)
    requires |q| == 128 && |r| >= 129
    ensures q != Cap(r)
  {
  }

  // After the bad run, in which no key occurs more than 129 times, a lookup of 0 is wrong.
  lemma BadAnswers()
    ensures AtMost(BadRun(), 129) && !Answers(BadRun(), 0)
  {
    forall k ensures Copies(BadRun(), k) <= 129 { BadCopies(k); }
    BadLookup();
    BadExpected();
    ShorterDiffers(Query(After(BadRun()), 0, 0), InRange(BadRun(), 0, 0));
  }

  // Lookups return what was inserted after every run in which no key occurs more than m times, if
  // and only if m <= 128.
  lemma CopiesThreshold(m: nat)
    ensures (forall run: seq<Entry>, k: int :: AtMost(run, m) ==> Answers(run, k)) <==> m <= 128
  {
    if m <= 128 {
      forall run: seq<Entry>, k: int | AtMost(run, m) ensures Answers(run, k) { EnoughAnswers(m, run, k); }
    } else {
      BadAnswers();
      AtMostMore(BadRun(), 129, m);
    }
  }
}
