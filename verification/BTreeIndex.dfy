// The whole index as a value: tree, leaf chain, counters; its insertions and range queries.

module BTreeIndex {
  import opened BTreeModel
  import opened BTreeOrder

  const MAX_OFFSETS: nat := 131072

  // chain lists the leaf pages in the order of their next links; h is the depth of the leaves.
  datatype Index = Index(root: Tree, h: nat, chain: seq<LeafPage>, np: nat, nkeys: nat)

  const Empty: Index := Index(Leaf(LeafPage(1, [])), 0, [LeafPage(1, [])], 2, 0)

  ghost function IndexOf<T>(s: seq<T>, x: T): (i: nat)
    ensures x in s ==> i < |s| && s[i] == x
  {
    if x in s then
      var i: nat :| i < |s| && s[i] == x;
      i
    else |s|
  }

  ghost function Insert(x: Index, e: Entry): Index {
    var p := Target(x.root, e);
    var chain := Splice(x.chain, IndexOf(x.chain, p), Repl(p, e, x.np));
    match Ins(x.root, e, x.np)
    case Kept(t, np) => Index(t, x.h, chain, np, x.nkeys + 1)
    case Split(l, mk, r, np) => Index(Node(np, [mk], [l, r]), x.h + 1, chain, np + 1, x.nkeys + 1)
  }

  // What holds of every index file, whatever keys went in: depth, capacities and occupancy; every
  // allocated page except the header used exactly once; the chain links exactly the leaves of the
  // tree; the key counter right.
  ghost predicate Sound(x: Index) {
    && Shape(x.root, x.h, true)
    && (forall pg: nat :: Uses(x.root, pg) == if 1 <= pg < x.np then 1 else 0)
    && (forall l: LeafPage :: Occurs(x.chain, l) == Occurs(Leaves(x.root), l))
    && x.nkeys == |Flat(x.chain)|
    && 1 <= x.np
  }

  // Sound, keys in order, and the chain runs through the leaves in tree order.
  ghost predicate Valid(x: Index) {
    Sound(x) && Ordered(x.root) && x.chain == Leaves(x.root)
  }

  lemma EmptyValid()
    ensures Valid(Empty)
  {
    assert Leaves(Empty.root) == [LeafPage(1, [])];
    FlatOne(LeafPage(1, []));
  }

  lemma OccursIn<T>(s: seq<T>, x: T)
    ensures x in s <==> Occurs(s, x) > 0
  {
  }

  lemma SpliceOccurs(ps: seq<LeafPage>, i: nat, repl: seq<LeafPage>, x: LeafPage)
    requires i < |ps|
    ensures Occurs(Splice(ps, i, repl), x) + (if ps[i] == x then 1 else 0) == Occurs(ps, x) + Occurs(repl, x)
  {
    SplitAt(ps, i);
    OccursApp3(ps[..i], [ps[i]], ps[i + 1..], x);
    OccursApp3(ps[..i], repl, ps[i + 1..], x);
  }

  lemma TargetInChain(x: Index, e: Entry)
    requires Sound(x)
    ensures Target(x.root, e) in x.chain
  {
    TargetAt(x.root, x.h, true, e);
    OccursIn(Leaves(x.root), Target(x.root, e));
    OccursIn(x.chain, Target(x.root, e));
  }

  lemma RootLeaves(pg: nat, mk: int, l: Tree, r: Tree)
    ensures Leaves(Node(pg, [mk], [l, r])) == Leaves(l) + Leaves(r)
    ensures Each([l, r]) == [Leaves(l), Leaves(r)]
  {
    LeavesNode(Node(pg, [mk], [l, r]));
    assert Each([l, r]) == [Leaves(l)] + [Leaves(r)];
    JoinApp([Leaves(l)], [Leaves(r)]);
    JoinOne(Leaves(l));
    JoinOne(Leaves(r));
  }

  lemma RootUses(pg: nat, mk: int, l: Tree, r: Tree, x: nat)
    ensures Uses(Node(pg, [mk], [l, r]), x) == (if pg == x then 1 else 0) + Uses(l, x) + Uses(r, x)
  {
    UsesNode(pg, [mk], [l, r], x);
    assert EachUses([l, r], x) == [Uses(l, x)] + [Uses(r, x)];
    SumApp([Uses(l, x)], [Uses(r, x)]);
  }

  lemma InsertLeaves(x: Index, e: Entry)
    ensures Leaves(Insert(x, e).root) == GLeaves(Ins(x.root, e, x.np))
  {
    match Ins(x.root, e, x.np)
    case Kept(_, _) =>
    case Split(l, mk, r, np) => RootLeaves(np, mk, l, r);
  }

  lemma InsertShape(x: Index, e: Entry)
    requires Sound(x)
    ensures Shape(Insert(x, e).root, Insert(x, e).h, true)
  {
    InsShape(x.root, x.h, true, e, x.np);
  }

  lemma InsertUses(x: Index, e: Entry, pg: nat)
    requires Sound(x)
    ensures Uses(Insert(x, e).root, pg) == if 1 <= pg < Insert(x, e).np then 1 else 0
  {
    InsUses(x.root, x.h, true, e, x.np, pg);
    assert Uses(x.root, 0) == 0 && Uses(x.root, x.np) == 0;
    match Ins(x.root, e, x.np)
    case Kept(_, _) =>
    case Split(l, mk, r, np) => RootUses(np, mk, l, r, pg);
  }

  // Any insertion, with any key, keeps the file sound.
  lemma InsertSound(x: Index, e: Entry)
    requires Sound(x)
    ensures Sound(Insert(x, e))
  {
    var y := Insert(x, e);
    var p := Target(x.root, e);
    InsertShape(x, e);
    forall pg: nat ensures Uses(y.root, pg) == if 1 <= pg < y.np then 1 else 0 { InsertUses(x, e, pg); }
    TargetInChain(x, e);
    var i := IndexOf(x.chain, p);
    forall l: LeafPage ensures Occurs(y.chain, l) == Occurs(Leaves(y.root), l) {
      SpliceOccurs(x.chain, i, Repl(p, e, x.np), l);
      InsOccurs(x.root, x.h, true, e, x.np, l);
      InsertLeaves(x, e);
    }
    FlatSplice(x.chain, i, Repl(p, e, x.np));
    FlatRepl(p, e, x.np);
    InsUses(x.root, x.h, true, e, x.np, 0);
  }

  // ---- nothing is lost, whatever the keys

  lemma {:induction false} FlatSame(a: seq<LeafPage>, b: seq<LeafPage>, e: Entry)
    requires forall l: LeafPage :: Occurs(a, l) == Occurs(b, l)
    ensures Occurs(Flat(a), e) == Occurs(Flat(b), e)
  {
    if a == [] {
      if b != [] {
        OccursIn(b, b[0]);
        OccursIn(a, b[0]);
      }
    } else {
      var l := a[0];
      OccursIn(a, l);
      OccursIn(b, l);
      var j := IndexOf(b, l);
      var b' := b[..j] + b[j + 1..];
      forall k: LeafPage ensures Occurs(a[1..], k) == Occurs(b', k) {
        assert a == [l] + a[1..];
        OccursApp([l], a[1..], k);
        SplitAt(b, j);
        OccursApp3(b[..j], [l], b[j + 1..], k);
        OccursApp(b[..j], b[j + 1..], k);
      }
      FlatSame(a[1..], b', e);
      SplitAt(b, j);
      FlatMid(b[..j], [l], b[j + 1..]);
      FlatApp(b[..j], b[j + 1..]);
      FlatOne(l);
      OccursApp(l.ents, Flat(a[1..]), e);
      OccursApp3(Flat(b[..j]), l.ents, Flat(b[j + 1..]), e);
      OccursApp(Flat(b[..j]), Flat(b[j + 1..]), e);
    }
  }

  lemma PlaceOccurs(s: seq<Entry>, e: Entry, x: Entry)
    ensures Occurs(Place(s, e), x) == Occurs(s, x) + (if x == e then 1 else 0)
  {
    var p := EntSlot(s, e.key);
    assert s == s[..p] + s[p..];
    OccursApp(s[..p], s[p..], x);
    OccursApp3(s[..p], [e], s[p..], x);
  }

  // One insertion adds exactly its own pair to the pairs held in the leaves of the tree.
  lemma InsertKeepsAll(x: Index, e: Entry, y: Entry)
    requires Sound(x)
    ensures Occurs(Ents(Insert(x, e).root), y) == Occurs(Ents(x.root), y) + (if y == e then 1 else 0)
  {
    InsertSound(x, e);
    FlatSame(x.chain, Leaves(x.root), y);
    FlatSame(Insert(x, e).chain, Leaves(Insert(x, e).root), y);
    var p := Target(x.root, e);
    TargetInChain(x, e);
    var i := IndexOf(x.chain, p);
    FlatSplice(x.chain, i, Repl(p, e, x.np));
    FlatRepl(p, e, x.np);
    PlaceOccurs(p.ents, e, y);
    OccursApp3(Flat(x.chain[..i]), p.ents, Flat(x.chain[i + 1..]), y);
    OccursApp3(Flat(x.chain[..i]), Place(p.ents, e), Flat(x.chain[i + 1..]), y);
  }

  // ---- an insertion keeps the index valid exactly when it does not clash

  lemma {:induction false} JoinUses(ls: seq<seq<LeafPage>>, us: seq<nat>, l: LeafPage)
    requires |ls| == |us| && forall i :: 0 <= i < |ls| ==> Occurs(ls[i], l) <= us[i]
    ensures Occurs(Join(ls), l) <= Sum(us)
  {
    if ls != [] {
      JoinUses(ls[1..], us[1..], l);
      OccursApp(ls[0], Join(ls[1..]), l);
    }
  }

  lemma {:induction false} LeafUses(t: Tree, l: LeafPage)
    ensures Occurs(Leaves(t), l) <= Uses(t, l.pg)
    decreases t
  {
    match t
    case Leaf(p) =>
    case Node(pg, seps, kids) =>
      forall i | 0 <= i < |kids| ensures Occurs(Each(kids)[i], l) <= EachUses(kids, l.pg)[i] {
        LeafUses(kids[i], l);
      }
      JoinUses(Each(kids), EachUses(kids, l.pg), l);
      LeavesNode(t);
      UsesNode(pg, seps, kids, l.pg);
  }

  lemma TwiceOccurs<T>(s: seq<T>, i: nat, j: nat)
    requires i < j < |s| && s[i] == s[j]
    ensures Occurs(s, s[i]) >= 2
  {
    SplitAt(s, j);
    OccursApp3(s[..j], [s[j]], s[j + 1..], s[i]);
    OccursIn(s[..j], s[i]);
    assert s[..j][i] == s[i];
  }

  lemma LeafOnce(x: Index, i: nat, j: nat)
    requires Sound(x) && i < |Leaves(x.root)| && j < |Leaves(x.root)| && Leaves(x.root)[i] == Leaves(x.root)[j]
    ensures i == j
  {
    var l := Leaves(x.root)[i];
    LeafUses(x.root, l);
    if i < j { TwiceOccurs(Leaves(x.root), i, j); }
    if j < i { TwiceOccurs(Leaves(x.root), j, i); }
  }

  lemma ChainWanted(x: Index, e: Entry)
    requires Valid(x)
    ensures Insert(x, e).chain == Wanted(x.root, e, x.np)
  {
    TargetAt(x.root, x.h, true, e);
    TargetInChain(x, e);
    LeafOnce(x, IndexOf(x.chain, Target(x.root, e)), TargetPos(x.root, e));
  }

  lemma RootOrdered(pg: nat, mk: int, l: Tree, r: Tree)
    requires Ordered(l) && Ordered(r) && AllLe(Ents(l), mk) && AllGe(Ents(r), mk)
    ensures Ordered(Node(pg, [mk], [l, r]))
  {
    RootLeaves(pg, mk, l, r);
    var ls := Each([l, r]);
    forall i: nat, j: nat ensures InOrder([mk], i, j) {}
    forall i: nat ensures OrderedAt([mk], ls, i) {}
  }

  lemma NoClashValid(x: Index, e: Entry)
    requires Valid(x) && !Clash(x.root, e)
    ensures Valid(Insert(x, e)) && Ents(Insert(x, e).root) == Place(Ents(x.root), e)
  {
    InsertSound(x, e);
    InsOrdered(x.root, x.h, true, e, x.np);
    InsertLeaves(x, e);
    ChainWanted(x, e);
    WantedEnts(x.root, x.h, true, e, x.np);
    match Ins(x.root, e, x.np)
    case Kept(_, _) =>
    case Split(l, mk, r, np) => RootOrdered(np, mk, l, r);
  }

  lemma ClashInvalid(x: Index, e: Entry)
    requires Valid(x) && Clash(x.root, e)
    ensures !Valid(Insert(x, e))
  {
    InsertSound(x, e);
    var a, b := ClashDisorder(x.root, x.h, true, e, x.np);
    InsertLeaves(x, e);
    ChainWanted(x, e);
    var y := Insert(x, e);
    if Valid(y) {
      var s := Leaves(y.root);
      var i, j :| 0 <= i < j < |s| && s[i] == a && s[j] == b;
      var i', j' :| 0 <= i' < j' < |s| && s[i'] == b && s[j'] == a;
      LeafOnce(y, i, j');
      LeafOnce(y, j, i');
    }
  }

  // The exact condition: an insertion keeps a valid index valid if and only if no full page on its
  // way down pushes up the very separator to its right.
  lemma InsertValidIff(x: Index, e: Entry)
    requires Valid(x)
    ensures Valid(Insert(x, e)) <==> !Clash(x.root, e)
  {
    if Clash(x.root, e) { ClashInvalid(x, e); } else { NoClashValid(x, e); }
  }

  // ---- range queries

  // Where the search "while p < n and k > keys[p]" stops.
  ghost predicate StopsLow(keys: seq<int>, k: int, p: nat) {
    p <= |keys| && (forall i :: 0 <= i < p ==> keys[i] < k) && (p < |keys| ==> k <= keys[p])
  }

  lemma {:induction false} LowSlotExists(keys: seq<int>, k: int, i: nat)
    requires i <= |keys| && forall j :: 0 <= j < i ==> keys[j] < k
    ensures exists p: nat :: StopsLow(keys, k, p)
    decreases |keys| - i
  {
    if i == |keys| || k <= keys[i] {
      assert StopsLow(keys, k, i);
    } else {
      LowSlotExists(keys, k, i + 1);
    }
  }

  ghost function LowSlot(keys: seq<int>, k: int): (p: nat)
    ensures StopsLow(keys, k, p)
  {
    LowSlotExists(keys, k, 0);
    var p: nat :| StopsLow(keys, k, p);
    p
  }

  // The leaf the descent for a range starts from: left on equality.
  ghost function FindLeaf(t: Tree, lo: int): LeafPage
    decreases t
  {
    match t
    case Leaf(p) => p
    case Node(pg, seps, kids) =>
      if |kids| != |seps| + 1 then LeafPage(pg, []) else FindLeaf(kids[LowSlot(seps, lo)], lo)
  }

  // What the walk collects from a run of entries: it stops for good at the first key above hi.
  ghost function Scan(es: seq<Entry>, lo: int, hi: int): seq<int> {
    if es == [] || es[0].key > hi then []
    else (if es[0].key >= lo then [es[0].off] else []) + Scan(es[1..], lo, hi)
  }

  ghost function Cap<T>(s: seq<T>): seq<T> {
    if |s| <= MAX_OFFSETS then s else s[..MAX_OFFSETS]
  }

  ghost function Query(x: Index, lo: int, hi: int): seq<int> {
    var i := IndexOf(x.chain, FindLeaf(x.root, lo));
    if x.nkeys == 0 || i >= |x.chain| then [] else Cap(Scan(Flat(x.chain[i..]), lo, hi))
  }

  // The meaning of a range query: the offsets of the entries with lo <= key <= hi, in order.
  ghost function InRange(es: seq<Entry>, lo: int, hi: int): seq<int> {
    if es == [] then []
    else (if lo <= es[0].key <= hi then [es[0].off] else []) + InRange(es[1..], lo, hi)
  }

  ghost predicate AllLt(es: seq<Entry>, k: int) { forall i :: 0 <= i < |es| ==> es[i].key < k }

  lemma {:induction false} NoneAbove(es: seq<Entry>, lo: int, hi: int)
    requires AllGt(es, hi)
    ensures InRange(es, lo, hi) == []
  {
    if es != [] { NoneAbove(es[1..], lo, hi); }
  }

  lemma {:induction false} NoneBelow(es: seq<Entry>, lo: int, hi: int)
    requires AllLt(es, lo)
    ensures InRange(es, lo, hi) == []
  {
    if es != [] { NoneBelow(es[1..], lo, hi); }
  }

  lemma {:induction false} InRangeApp(a: seq<Entry>, b: seq<Entry>, lo: int, hi: int)
    ensures InRange(a + b, lo, hi) == InRange(a, lo, hi) + InRange(b, lo, hi)
  {
    if a == [] {
      assert a + b == b;
    } else {
      assert (a + b)[1..] == a[1..] + b;
      InRangeApp(a[1..], b, lo, hi);
    }
  }

  // On sorted entries stopping early loses nothing.
  lemma {:induction false} ScanSorted(es: seq<Entry>, lo: int, hi: int)
    requires Sorted(es)
    ensures Scan(es, lo, hi) == InRange(es, lo, hi)
  {
    if es != [] {
      if es[0].key > hi {
        assert AllGt(es, hi);
        NoneAbove(es, lo, hi);
      } else {
        ScanSorted(es[1..], lo, hi);
      }
    }
  }

  ghost function FindPos(t: Tree, lo: int): nat
    decreases t
  {
    match t
    case Leaf(_) => 0
    case Node(_, seps, kids) =>
      if |kids| != |seps| + 1 then 0 else
      var ci := LowSlot(seps, lo);
      |Join(Each(kids)[..ci])| + FindPos(kids[ci], lo)
  }

  lemma {:induction false} FindAt(t: Tree, h: nat, root: bool, lo: int)
    requires Shape(t, h, root)
    ensures FindPos(t, lo) < |Leaves(t)| && Leaves(t)[FindPos(t, lo)] == FindLeaf(t, lo)
    decreases h
  {
    if t.Node? {
      var ci := LowSlot(t.seps, lo);
      FindAt(t.kids[ci], h - 1, false, lo);
      LeavesNode(t);
      JoinAt(Each(t.kids), ci);
    }
  }

  lemma LeLt(es: seq<Entry>, a: int, b: int)
    requires AllLe(es, a) && a < b
    ensures AllLt(es, b)
  {
  }

  lemma AppLt(a: seq<Entry>, b: seq<Entry>, k: int)
    requires AllLt(a, k) && AllLt(b, k)
    ensures AllLt(a + b, k)
  {
  }

  lemma FindRightNode(seps: seq<int>, ls: seq<seq<LeafPage>>, ci: nat, q: nat, lo: int)
    requires OrderedKids(seps, ls) && ci == LowSlot(seps, lo) && q < |ls[ci]|
    requires AllLt(Flat(ls[ci][..q]), lo)
    ensures var p := |Join(ls[..ci])| + q; p < |Join(ls)| && AllLt(Flat(Join(ls)[..p]), lo)
  {
    var a, b, d := Join(ls[..ci]), ls[ci], Join(ls[ci + 1..]);
    if ci > 0 {
      KidsBelow(seps, ls, ci, seps[ci - 1]);
      LeLt(Flat(a), seps[ci - 1], lo);
    } else {
      assert ls[..0] == [];
    }
    AppLt(Flat(a), Flat(b[..q]), lo);
    JoinAt(ls, ci);
    SidesMid(a, b, d, q);
  }

  // Nothing in range lies left of the leaf the descent finds.
  lemma {:induction false} FindRight(t: Tree, h: nat, root: bool, lo: int)
    requires Shape(t, h, root) && Ordered(t)
    ensures FindPos(t, lo) < |Leaves(t)| && AllLt(Flat(Leaves(t)[..FindPos(t, lo)]), lo)
    decreases h
  {
    FindAt(t, h, root, lo);
    if t.Node? {
      var ci := LowSlot(t.seps, lo);
      FindRight(t.kids[ci], h - 1, false, lo);
      FindRightNode(t.seps, Each(t.kids), ci, FindPos(t.kids[ci], lo), lo);
      LeavesNode(t);
    }
  }

  lemma {:induction false} JoinSorted(seps: seq<int>, ls: seq<seq<LeafPage>>, m: nat)
    requires OrderedKids(seps, ls) && m <= |ls|
    requires forall i :: 0 <= i < |ls| ==> Sorted(Flat(ls[i]))
    ensures Sorted(Flat(Join(ls[..m])))
  {
    if m > 0 {
      JoinSorted(seps, ls, m - 1);
      assert ls[..m] == ls[..m - 1] + [ls[m - 1]];
      JoinApp(ls[..m - 1], [ls[m - 1]]);
      JoinOne(ls[m - 1]);
      var a, b := Flat(Join(ls[..m - 1])), Flat(ls[m - 1]);
      FlatApp(Join(ls[..m - 1]), ls[m - 1]);
      if m >= 2 {
        assert OrderedAt(seps, ls, m - 2);
        KidsBelow(seps, ls, m - 1, seps[m - 2]);
        SortedApp(a, b, seps[m - 2]);
      } else {
        assert ls[..0] == [] && a == [];
        assert a + b == b;
      }
    }
  }

  lemma SortedApp(a: seq<Entry>, b: seq<Entry>, k: int)
    requires Sorted(a) && Sorted(b) && AllLe(a, k) && AllGe(b, k)
    ensures Sorted(a + b)
  {
  }

  lemma {:induction false} EntsSorted(t: Tree, h: nat, root: bool)
    requires Shape(t, h, root) && Ordered(t)
    ensures Sorted(Ents(t))
    decreases h
  {
    if t.Leaf? {
      FlatOne(t.page);
    } else {
      forall i | 0 <= i < |t.kids| ensures Sorted(Flat(Each(t.kids)[i])) { EntsSorted(t.kids[i], h - 1, false); }
      JoinSorted(t.seps, Each(t.kids), |t.kids|);
      assert Each(t.kids)[..|t.kids|] == Each(t.kids);
      LeavesNode(t);
    }
  }

  lemma SuffixScan(a: seq<Entry>, b: seq<Entry>, lo: int, hi: int)
    requires Sorted(a + b) && AllLt(a, lo)
    ensures Scan(b, lo, hi) == InRange(a + b, lo, hi)
  {
    InRangeApp(a, b, lo, hi);
    NoneBelow(a, lo, hi);
    assert Sorted(b) by {
      assert forall i :: 0 <= i < |b| ==> (a + b)[|a| + i] == b[i];
    }
    ScanSorted(b, lo, hi);
  }

  // On a valid index a range query returns exactly the offsets in range, in key order, cut to capacity.
  lemma QueryRight(x: Index, lo: int, hi: int)
    requires Valid(x)
    ensures Query(x, lo, hi) == Cap(InRange(Ents(x.root), lo, hi))
  {
    var ps := x.chain;
    FindAt(x.root, x.h, true, lo);
    FindRight(x.root, x.h, true, lo);
    var p := FindPos(x.root, lo);
    LeafOnce(x, IndexOf(ps, FindLeaf(x.root, lo)), p);
    assert ps == ps[..p] + ps[p..];
    FlatApp(ps[..p], ps[p..]);
    EntsSorted(x.root, x.h, true);
    SuffixScan(Flat(ps[..p]), Flat(ps[p..]), lo, hi);
  }

  // ---- how full the pages are

  ghost function Pow(b: nat, n: nat): nat {
    if n == 0 then 1 else b * Pow(b, n - 1)
  }

  lemma {:induction false} JoinFull(ls: seq<seq<LeafPage>>, n: nat)
    requires forall i :: 0 <= i < |ls| ==> n <= |Flat(ls[i])|
    ensures |ls| * n <= |Flat(Join(ls))|
  {
    if ls != [] {
      JoinFull(ls[1..], n);
      FlatApp(ls[0], Join(ls[1..]));
      MulStep(|ls|, n);
    }
  }

  lemma MulStep(a: nat, n: nat)
    requires a > 0
    ensures a * n == n + (a - 1) * n
  {
  }

  lemma {:induction false} SubtreeFull(t: Tree, h: nat)
    requires Shape(t, h, false)
    ensures 128 * Pow(171, h) <= |Ents(t)|
    decreases h
  {
    if t.Leaf? {
      FlatOne(t.page);
    } else {
      var n := 128 * Pow(171, h - 1);
      forall i | 0 <= i < |t.kids| ensures n <= |Flat(Each(t.kids)[i])| { SubtreeFull(t.kids[i], h - 1); }
      JoinFull(Each(t.kids), n);
      LeavesNode(t);
      MulLe(171, |t.kids|, n);
    }
  }

  lemma MulLe(a: nat, b: nat, n: nat)
    requires a <= b
    ensures a * n <= b * n
  {
  }

  // A tree with h >= 1 internal levels holds at least 2 * 171^(h-1) * 128 entries: descents are short.
  lemma HeightBound(x: Index)
    requires Sound(x) && x.h >= 1
    ensures 2 * 128 * Pow(171, x.h - 1) <= x.nkeys
  {
    var t := x.root;
    var n := 128 * Pow(171, x.h - 1);
    forall i | 0 <= i < |t.kids| ensures n <= |Flat(Each(t.kids)[i])| { SubtreeFull(t.kids[i], x.h - 1); }
    JoinFull(Each(t.kids), n);
    LeavesNode(t);
    MulLe(2, |t.kids|, n);
    SameSize(x.chain, Leaves(t));
  }

  lemma {:induction false} SameSize(a: seq<LeafPage>, b: seq<LeafPage>)
    requires forall l: LeafPage :: Occurs(a, l) == Occurs(b, l)
    ensures |Flat(a)| == |Flat(b)|
  {
    forall e: Entry ensures multiset(Flat(a))[e] == multiset(Flat(b))[e] { FlatSame(a, b, e); }
    assert multiset(Flat(a)) == multiset(Flat(b));
    assert |multiset(Flat(a))| == |Flat(a)|;
  }
}
