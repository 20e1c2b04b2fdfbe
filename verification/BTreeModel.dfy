// The pages of the index file as a tree of values, and what one insertion does to it.

module BTreeModel {
  import opened Shared

  const LEAF_MAX: nat := 255
  const INT_MAX: nat := 340

  datatype Entry = Entry(key: int, off: int)

  datatype LeafPage = LeafPage(pg: nat, ents: seq<Entry>)

  datatype Tree =
    | Leaf(page: LeafPage)
    | Node(pg: nat, seps: seq<int>, kids: seq<Tree>)
  {
    function Pg(): nat {
      if Leaf? then page.pg else pg
    }
  }

  // Result of inserting below a page: it kept its page, or split in two with a key to push up.
  // np is the number of the next page to allocate.
  datatype Grown =
    | Kept(t: Tree, np: nat)
    | Split(l: Tree, mk: int, r: Tree, np: nat)

  // p is where the search loop "while p < n and k >= keys[p]" stops.
  ghost predicate StopsAt(keys: seq<int>, k: int, p: nat) {
    p <= |keys| && (forall i :: 0 <= i < p ==> keys[i] <= k) && (p < |keys| ==> k < keys[p])
  }

  lemma {:induction false} SlotExists(keys: seq<int>, k: int, i: nat)
    requires i <= |keys| && forall j :: 0 <= j < i ==> keys[j] <= k
    ensures exists p: nat :: StopsAt(keys, k, p)
    decreases |keys| - i
  {
    if i == |keys| || k < keys[i] {
      assert StopsAt(keys, k, i);
    } else {
      SlotExists(keys, k, i + 1);
    }
  }

  // First slot whose key is greater than k.
  ghost function Slot(keys: seq<int>, k: int): (p: nat)
    ensures StopsAt(keys, k, p)
  {
    SlotExists(keys, k, 0);
    var p: nat :| StopsAt(keys, k, p);
    p
  }

  function Keys(ents: seq<Entry>): (r: seq<int>)
    ensures |r| == |ents| && forall i :: 0 <= i < |ents| ==> r[i] == ents[i].key
  {
    seq(|ents|, i requires 0 <= i < |ents| => ents[i].key)
  }

  // First entry whose key is greater than k.
  ghost function EntSlot(ents: seq<Entry>, k: int): (p: nat)
    ensures p <= |ents|
    ensures forall i :: 0 <= i < p ==> ents[i].key <= k
    ensures p < |ents| ==> k < ents[p].key
  {
    var p := Slot(Keys(ents), k);
    assert forall i :: 0 <= i < p ==> ents[i].key == Keys(ents)[i];
    p
  }

  ghost function Place(ents: seq<Entry>, e: Entry): (r: seq<Entry>)
    ensures |r| == |ents| + 1
  {
    var p := EntSlot(ents, e.key);
    ents[..p] + [e] + ents[p..]
  }

  ghost function LeafIns(p: LeafPage, e: Entry, np: nat): Grown {
    var s := Place(p.ents, e);
    if |p.ents| < LEAF_MAX then Kept(Leaf(LeafPage(p.pg, s)), np)
    else Split(Leaf(LeafPage(p.pg, s[..128])), s[128].key, Leaf(LeafPage(np, s[128..])), np + 1)
  }

  // s with x put right after position p.
  function With<T>(s: seq<T>, p: nat, x: T): (r: seq<T>)
    requires p < |s|
    ensures |r| == |s| + 1
  {
    s[..p + 1] + [x] + s[p + 1..]
  }

  ghost function SepsWith(seps: seq<int>, mk: int): (r: seq<int>)
    ensures |r| == |seps| + 1
  {
    var p := Slot(seps, mk);
    seps[..p] + [mk] + seps[p..]
  }

  ghost function Cut(pg: nat, ss: seq<int>, ks: seq<Tree>, np: nat): Grown
    requires |ks| == |ss| + 1
  {
    if |ss| <= INT_MAX then Kept(Node(pg, ss, ks), np)
    else
      var mid := |ss| / 2;
      Split(Node(pg, ss[..mid], ks[..mid + 1]), ss[mid], Node(np, ss[mid + 1..], ks[mid + 1..]), np + 1)
  }

  ghost function IntIns(pg: nat, seps: seq<int>, kids: seq<Tree>, mk: int, c: Tree, np: nat): Grown
    requires |kids| == |seps| + 1
  {
    Cut(pg, SepsWith(seps, mk), With(kids, Slot(seps, mk), c), np)
  }

  // The recursive descent. (The code only ever writes internal pages with one more child than keys.)
  ghost function Ins(t: Tree, e: Entry, np: nat): Grown
    decreases t
  {
    match t
    case Leaf(p) => LeafIns(p, e, np)
    case Node(pg, seps, kids) =>
      if |kids| != |seps| + 1 then Kept(t, np) else
      var ci := Slot(seps, e.key);
      match Ins(kids[ci], e, np)
      case Kept(c, np1) => Kept(Node(pg, seps, kids[ci := c]), np1)
      case Split(l, mk, r, np1) => IntIns(pg, seps, kids[ci := l], mk, r, np1)
  }

  // All leaves at depth h, page capacities, and half-full pages everywhere but at the root.
  ghost predicate Shape(t: Tree, h: nat, root: bool)
    decreases h
  {
    match t
    case Leaf(p) => h == 0 && (if root then 0 else 128) <= |p.ents| <= LEAF_MAX
    case Node(_, seps, kids) =>
      && h > 0 && |kids| == |seps| + 1
      && (if root then 1 else 170) <= |seps| <= INT_MAX
      && forall i :: 0 <= i < |kids| ==> Shape(kids[i], h - 1, false)
  }

  ghost predicate AllShape(ts: seq<Tree>, h: nat) {
    forall i :: 0 <= i < |ts| ==> Shape(ts[i], h, false)
  }

  ghost predicate GShape(g: Grown, h: nat, root: bool) {
    match g
    case Kept(t, _) => Shape(t, h, root)
    case Split(l, _, r, _) => Shape(l, h, false) && Shape(r, h, false)
  }

  lemma CutShape(pg: nat, ss: seq<int>, ks: seq<Tree>, np: nat, h: nat, root: bool)
    requires |ks| == |ss| + 1 && (if root then 1 else 170) <= |ss| <= INT_MAX + 1
    requires AllShape(ks, h)
    ensures GShape(Cut(pg, ss, ks, np), h + 1, root)
  {
    if |ss| > INT_MAX {
      var l, r := ks[..171], ks[171..];
      assert AllShape(l, h) && AllShape(r, h);
    }
  }

  lemma SwapShape(kids: seq<Tree>, ci: nat, c: Tree, h: nat)
    requires AllShape(kids, h) && ci < |kids| && Shape(c, h, false)
    ensures AllShape(kids[ci := c], h)
  {
  }

  lemma GrowShape(ks: seq<Tree>, p: nat, r: Tree, h: nat)
    requires AllShape(ks, h) && p < |ks| && Shape(r, h, false)
    ensures AllShape(With(ks, p, r), h)
  {
    forall i | 0 <= i < |ks| + 1 ensures Shape(With(ks, p, r)[i], h, false) {
      if i > p + 1 { assert With(ks, p, r)[i] == ks[i - 1]; }
    }
  }

  lemma InsShapeNode(pg: nat, seps: seq<int>, kids: seq<Tree>, ci: nat, g: Grown, h: nat, root: bool)
    requires |kids| == |seps| + 1 && (if root then 1 else 170) <= |seps| <= INT_MAX
    requires AllShape(kids, h) && ci < |kids| && GShape(g, h, false)
    ensures g.Kept? ==> Shape(Node(pg, seps, kids[ci := g.t]), h + 1, root)
    ensures g.Split? ==> GShape(IntIns(pg, seps, kids[ci := g.l], g.mk, g.r, g.np), h + 1, root)
  {
    match g
    case Kept(c, _) =>
      SwapShape(kids, ci, c, h);
      assert AllShape(kids[ci := c], h);
    case Split(l, mk, r, np) =>
      SwapShape(kids, ci, l, h);
      GrowShape(kids[ci := l], Slot(seps, mk), r, h);
      CutShape(pg, SepsWith(seps, mk), With(kids[ci := l], Slot(seps, mk), r), np, h, root);
  }

  // Every insertion, with any keys, keeps depth, capacities and occupancy.
  lemma {:induction false} InsShape(t: Tree, h: nat, root: bool, e: Entry, np: nat)
    requires Shape(t, h, root)
    ensures GShape(Ins(t, e, np), h, root)
    decreases h
  {
    match t
    case Leaf(_) =>
    case Node(pg, seps, kids) =>
      var ci := Slot(seps, e.key);
      InsShape(kids[ci], h - 1, false, e, np);
      assert AllShape(kids, h - 1);
      InsShapeNode(pg, seps, kids, ci, Ins(kids[ci], e, np), h - 1, root);
  }

  // ---- leaves in tree order

  function Join<T>(ls: seq<seq<T>>): seq<T> {
    if ls == [] then [] else ls[0] + Join(ls[1..])
  }

  lemma {:induction false} JoinApp<T>(a: seq<seq<T>>, b: seq<seq<T>>)
    ensures Join(a + b) == Join(a) + Join(b)
  {
    if a == [] {
      assert a + b == b;
    } else {
      assert (a + b)[1..] == a[1..] + b;
      JoinApp(a[1..], b);
    }
  }

  lemma JoinOne<T>(r: seq<T>)
    ensures Join([r]) == r
  {
    assert [r][1..] == [];
    assert r + Join<T>([]) == r;
  }

  lemma SplitAt<T>(s: seq<T>, i: nat)
    requires i < |s|
    ensures s == s[..i] + [s[i]] + s[i + 1..]
  {
  }

  lemma JoinMid<T>(a: seq<seq<T>>, m: seq<T>, b: seq<seq<T>>)
    ensures Join(a + [m] + b) == Join(a) + m + Join(b)
  {
    JoinApp(a + [m], b);
    JoinApp(a, [m]);
    JoinOne(m);
  }

  lemma JoinAt<T>(ls: seq<seq<T>>, i: nat)
    requires i < |ls|
    ensures Join(ls) == Join(ls[..i]) + ls[i] + Join(ls[i + 1..])
  {
    SplitAt(ls, i);
    JoinMid(ls[..i], ls[i], ls[i + 1..]);
  }

  ghost function Leaves(t: Tree): seq<LeafPage>
    decreases t
  {
    match t
    case Leaf(p) => [p]
    case Node(_, _, kids) => Join(seq(|kids|, i requires 0 <= i < |kids| => Leaves(kids[i])))
  }

  // The leaves under each of a list of pages.
  ghost function Each(kids: seq<Tree>): (r: seq<seq<LeafPage>>)
    ensures |r| == |kids| && forall i :: 0 <= i < |kids| ==> r[i] == Leaves(kids[i])
  {
    seq(|kids|, i requires 0 <= i < |kids| => Leaves(kids[i]))
  }

  lemma LeavesNode(t: Tree)
    requires t.Node?
    ensures Leaves(t) == Join(Each(t.kids))
  {
    assert seq(|t.kids|, i requires 0 <= i < |t.kids| => Leaves(t.kids[i])) == Each(t.kids);
  }

  lemma EachSwap(kids: seq<Tree>, ci: nat, c: Tree)
    requires ci < |kids|
    ensures Each(kids[ci := c]) == Each(kids)[ci := Leaves(c)]
  {
  }

  lemma EachWith(kids: seq<Tree>, p: nat, c: Tree)
    requires p < |kids|
    ensures Each(With(kids, p, c)) == With(Each(kids), p, Leaves(c))
  {
    assert forall i :: p + 1 < i <= |kids| ==> With(kids, p, c)[i] == kids[i - 1];
  }

  lemma EachCut(ks: seq<Tree>, m: nat)
    requires m <= |ks|
    ensures Each(ks[..m]) == Each(ks)[..m] && Each(ks[m..]) == Each(ks)[m..]
  {
  }

  ghost function GLeaves(g: Grown): seq<LeafPage> {
    match g
    case Kept(t, _) => Leaves(t)
    case Split(l, _, r, _) => Leaves(l) + Leaves(r)
  }

  lemma CutLeaves(pg: nat, ss: seq<int>, ks: seq<Tree>, np: nat)
    requires |ks| == |ss| + 1
    ensures GLeaves(Cut(pg, ss, ks, np)) == Join(Each(ks))
  {
    if |ss| > INT_MAX {
      var mid := |ss| / 2;
      EachCut(ks, mid + 1);
      JoinApp(Each(ks)[..mid + 1], Each(ks)[mid + 1..]);
      assert Each(ks) == Each(ks)[..mid + 1] + Each(ks)[mid + 1..];
      LeavesNode(Node(pg, ss[..mid], ks[..mid + 1]));
      LeavesNode(Node(np, ss[mid + 1..], ks[mid + 1..]));
    } else {
      LeavesNode(Node(pg, ss, ks));
    }
  }

  // The leaves after a step at an internal page, from the leaves under its children.
  lemma StepLeaves(t: Tree, e: Entry, np: nat, ci: nat, g: Grown)
    requires t.Node? && |t.kids| == |t.seps| + 1 && ci == Slot(t.seps, e.key) && g == Ins(t.kids[ci], e, np)
    ensures g.Kept? ==> GLeaves(Ins(t, e, np)) == Join(Each(t.kids)[ci := GLeaves(g)])
    ensures g.Split? ==>
            GLeaves(Ins(t, e, np))
            == Join(With(Each(t.kids)[ci := Leaves(g.l)], Slot(t.seps, g.mk), Leaves(g.r)))
  {
    match g
    case Kept(c, _) =>
      EachSwap(t.kids, ci, c);
      LeavesNode(Node(t.pg, t.seps, t.kids[ci := c]));
    case Split(l, mk, r, np1) =>
      EachSwap(t.kids, ci, l);
      EachWith(t.kids[ci := l], Slot(t.seps, mk), r);
      CutLeaves(t.pg, SepsWith(t.seps, mk), With(t.kids[ci := l], Slot(t.seps, mk), r), np1);
  }

  lemma SwapJoin<T>(ls: seq<seq<T>>, ci: nat, l: seq<T>)
    requires ci < |ls|
    ensures Join(ls) == Join(ls[..ci]) + ls[ci] + Join(ls[ci + 1..])
    ensures Join(ls[ci := l]) == Join(ls[..ci]) + l + Join(ls[ci + 1..])
  {
    JoinAt(ls, ci);
    JoinAt(ls[ci := l], ci);
    assert ls[ci := l][..ci] == ls[..ci] && ls[ci := l][ci + 1..] == ls[ci + 1..];
  }

  lemma WithJoin<T>(ls: seq<seq<T>>, p: nat, r: seq<T>)
    requires p < |ls|
    ensures Join(ls) == Join(ls[..p + 1]) + Join(ls[p + 1..])
    ensures Join(With(ls, p, r)) == Join(ls[..p + 1]) + r + Join(ls[p + 1..])
  {
    assert ls == ls[..p + 1] + ls[p + 1..];
    JoinApp(ls[..p + 1], ls[p + 1..]);
    JoinMid(ls[..p + 1], r, ls[p + 1..]);
  }

  // ---- the one leaf an insertion reaches

  ghost function Target(t: Tree, e: Entry): LeafPage
    decreases t
  {
    match t
    case Leaf(p) => p
    case Node(pg, seps, kids) =>
      if |kids| != |seps| + 1 then LeafPage(pg, []) else Target(kids[Slot(seps, e.key)], e)
  }

  ghost function Repl(p: LeafPage, e: Entry, np: nat): seq<LeafPage> {
    GLeaves(LeafIns(p, e, np))
  }

  // How often x occurs in a list.
  ghost function Occurs<T>(ls: seq<T>, x: T): nat { multiset(ls)[x] }

  lemma OccursApp<T>(a: seq<T>, b: seq<T>, x: T)
    ensures Occurs(a + b, x) == Occurs(a, x) + Occurs(b, x)
  {
  }

  lemma OccursApp3<T>(a: seq<T>, b: seq<T>, c: seq<T>, x: T)
    ensures Occurs(a + b + c, x) == Occurs(a, x) + Occurs(b, x) + Occurs(c, x)
  {
    OccursApp(a + b, c, x);
    OccursApp(a, b, x);
  }

  lemma SwapOccurs<T>(ls: seq<seq<T>>, ci: nat, l: seq<T>, x: T)
    requires ci < |ls|
    ensures Occurs(Join(ls[ci := l]), x) + Occurs(ls[ci], x) == Occurs(Join(ls), x) + Occurs(l, x)
  {
    SwapJoin(ls, ci, l);
    OccursApp3(Join(ls[..ci]), ls[ci], Join(ls[ci + 1..]), x);
    OccursApp3(Join(ls[..ci]), l, Join(ls[ci + 1..]), x);
  }

  lemma WithOccurs<T>(ls: seq<seq<T>>, p: nat, r: seq<T>, x: T)
    requires p < |ls|
    ensures Occurs(Join(With(ls, p, r)), x) == Occurs(Join(ls), x) + Occurs(r, x)
  {
    WithJoin(ls, p, r);
    OccursApp(Join(ls[..p + 1]), Join(ls[p + 1..]), x);
    OccursApp3(Join(ls[..p + 1]), r, Join(ls[p + 1..]), x);
  }

  // With any keys whatever, the leaves after an insertion are the leaves before it with the
  // target leaf replaced: nothing else is lost, copied or changed.
  lemma {:induction false} InsOccurs(t: Tree, h: nat, root: bool, e: Entry, np: nat, x: LeafPage)
    requires Shape(t, h, root)
    ensures Occurs(GLeaves(Ins(t, e, np)), x) + (if Target(t, e) == x then 1 else 0)
         == Occurs(Leaves(t), x) + Occurs(Repl(Target(t, e), e, np), x)
    decreases h
  {
    if t.Node? {
      var ci := Slot(t.seps, e.key);
      var g := Ins(t.kids[ci], e, np);
      InsOccurs(t.kids[ci], h - 1, false, e, np, x);
      LeavesNode(t);
      StepLeaves(t, e, np, ci, g);
      match g {
        case Kept(_, _) => SwapOccurs(Each(t.kids), ci, GLeaves(g), x);
        case Split(l, mk, r, _) =>
          SwapOccurs(Each(t.kids), ci, Leaves(l), x);
          WithOccurs(Each(t.kids)[ci := Leaves(l)], Slot(t.seps, mk), Leaves(r), x);
          OccursApp(Leaves(l), Leaves(r), x);
      }
    }
  }

  // ---- page numbers

  function Sum(ns: seq<nat>): nat {
    if ns == [] then 0 else ns[0] + Sum(ns[1..])
  }

  lemma {:induction false} SumApp(a: seq<nat>, b: seq<nat>)
    ensures Sum(a + b) == Sum(a) + Sum(b)
  {
    if a == [] {
      assert a + b == b;
    } else {
      assert (a + b)[1..] == a[1..] + b;
      SumApp(a[1..], b);
    }
  }

  lemma SumMid(a: seq<nat>, m: nat, b: seq<nat>)
    ensures Sum(a + [m] + b) == Sum(a) + m + Sum(b)
  {
    SumApp(a + [m], b);
    SumApp(a, [m]);
    assert Sum([m]) == m + Sum([m][1..]);
  }

  lemma SumAt(ns: seq<nat>, i: nat)
    requires i < |ns|
    ensures Sum(ns) == Sum(ns[..i]) + ns[i] + Sum(ns[i + 1..])
  {
    SplitAt(ns, i);
    SumMid(ns[..i], ns[i], ns[i + 1..]);
  }

  lemma SumSwap(ns: seq<nat>, i: nat, n: nat)
    requires i < |ns|
    ensures Sum(ns[i := n]) + ns[i] == Sum(ns) + n
  {
    SumAt(ns, i);
    SumAt(ns[i := n], i);
    assert ns[i := n][..i] == ns[..i] && ns[i := n][i + 1..] == ns[i + 1..];
  }

  lemma SumWith(ns: seq<nat>, p: nat, n: nat)
    requires p < |ns|
    ensures Sum(With(ns, p, n)) == Sum(ns) + n
  {
    assert ns == ns[..p + 1] + ns[p + 1..];
    SumApp(ns[..p + 1], ns[p + 1..]);
    SumMid(ns[..p + 1], n, ns[p + 1..]);
  }

  // How often page number x occurs in a tree.
  ghost function Uses(t: Tree, x: nat): nat
    decreases t
  {
    match t
    case Leaf(p) => if p.pg == x then 1 else 0
    case Node(pg, _, kids) =>
      (if pg == x then 1 else 0) + Sum(seq(|kids|, i requires 0 <= i < |kids| => Uses(kids[i], x)))
  }

  ghost function EachUses(kids: seq<Tree>, x: nat): (r: seq<nat>)
    ensures |r| == |kids| && forall i :: 0 <= i < |kids| ==> r[i] == Uses(kids[i], x)
  {
    seq(|kids|, i requires 0 <= i < |kids| => Uses(kids[i], x))
  }

  lemma UsesNode(pg: nat, seps: seq<int>, kids: seq<Tree>, x: nat)
    ensures Uses(Node(pg, seps, kids), x) == (if pg == x then 1 else 0) + Sum(EachUses(kids, x))
  {
    assert seq(|kids|, i requires 0 <= i < |kids| => Uses(kids[i], x)) == EachUses(kids, x);
  }

  ghost function GUses(g: Grown, x: nat): nat {
    match g
    case Kept(t, _) => Uses(t, x)
    case Split(l, _, r, _) => Uses(l, x) + Uses(r, x)
  }

  lemma CutUses(pg: nat, ss: seq<int>, ks: seq<Tree>, np: nat, x: nat)
    requires |ks| == |ss| + 1
    ensures var g := Cut(pg, ss, ks, np);
            && np <= g.np
            && GUses(g, x) == (if pg == x then 1 else 0) + Sum(EachUses(ks, x)) + (if np <= x < g.np then 1 else 0)
  {
    if |ss| > INT_MAX {
      var mid := |ss| / 2;
      var us := EachUses(ks, x);
      SumApp(us[..mid + 1], us[mid + 1..]);
      assert us == us[..mid + 1] + us[mid + 1..];
      assert EachUses(ks[..mid + 1], x) == us[..mid + 1] && EachUses(ks[mid + 1..], x) == us[mid + 1..];
      UsesNode(pg, ss[..mid], ks[..mid + 1], x);
      UsesNode(np, ss[mid + 1..], ks[mid + 1..], x);
    } else {
      UsesNode(pg, ss, ks, x);
    }
  }

  lemma SwapUses(kids: seq<Tree>, ci: nat, c: Tree, x: nat)
    requires ci < |kids|
    ensures Sum(EachUses(kids[ci := c], x)) + Uses(kids[ci], x) == Sum(EachUses(kids, x)) + Uses(c, x)
  {
    assert EachUses(kids[ci := c], x) == EachUses(kids, x)[ci := Uses(c, x)];
    SumSwap(EachUses(kids, x), ci, Uses(c, x));
  }

  lemma WithUses(ks: seq<Tree>, p: nat, r: Tree, x: nat)
    requires p < |ks|
    ensures Sum(EachUses(With(ks, p, r), x)) == Sum(EachUses(ks, x)) + Uses(r, x)
  {
    assert forall i :: p + 1 < i <= |ks| ==> With(ks, p, r)[i] == ks[i - 1];
    assert EachUses(With(ks, p, r), x) == With(EachUses(ks, x), p, Uses(r, x));
    SumWith(EachUses(ks, x), p, Uses(r, x));
  }

  // New pages are exactly the freshly allocated numbers, each used once, and no old page is
  // dropped or shared.
  lemma {:induction false} InsUses(t: Tree, h: nat, root: bool, e: Entry, np: nat, x: nat)
    requires Shape(t, h, root)
    ensures var g := Ins(t, e, np);
            && np <= g.np
            && GUses(g, x) == Uses(t, x) + (if np <= x < g.np then 1 else 0)
    decreases h
  {
    if t.Node? {
      var ci := Slot(t.seps, e.key);
      InsUses(t.kids[ci], h - 1, false, e, np, x);
      UsesNode(t.pg, t.seps, t.kids, x);
      match Ins(t.kids[ci], e, np) {
        case Kept(c, _) =>
          SwapUses(t.kids, ci, c, x);
          UsesNode(t.pg, t.seps, t.kids[ci := c], x);
        case Split(l, mk, r, np1) =>
          SwapUses(t.kids, ci, l, x);
          WithUses(t.kids[ci := l], Slot(t.seps, mk), r, x);
          CutUses(t.pg, SepsWith(t.seps, mk), With(t.kids[ci := l], Slot(t.seps, mk), r), np1, x);
      }
    }
  }

  // The page an insertion starts from keeps its number.
  lemma InsPg(t: Tree, e: Entry, np: nat)
    ensures match Ins(t, e, np)
            case Kept(c, _) => c.Pg() == t.Pg() && c.Leaf? == t.Leaf?
            case Split(l, _, r, np1) => l.Pg() == t.Pg() && l.Leaf? == r.Leaf? == t.Leaf? && r.Pg() == np1 - 1
  {
  }
}
