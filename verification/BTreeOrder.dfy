// When an insertion keeps a B+ tree in order: the exact condition, read off the pages before the call.

module BTreeOrder {
  import opened Shared
  import opened BTreeModel

  // ---- entries under a list of leaves

  ghost function Flat(ps: seq<LeafPage>): seq<Entry> {
    if ps == [] then [] else ps[0].ents + Flat(ps[1..])
  }

  ghost function Ents(t: Tree): seq<Entry> {
    Flat(Leaves(t))
  }

  lemma {:induction false} FlatApp(a: seq<LeafPage>, b: seq<LeafPage>)
    ensures Flat(a + b) == Flat(a) + Flat(b)
  {
    if a == [] {
      assert a + b == b;
    } else {
      assert (a + b)[1..] == a[1..] + b;
      FlatApp(a[1..], b);
    }
  }

  lemma FlatOne(p: LeafPage)
    ensures Flat([p]) == p.ents
  {
    assert [p][1..] == [];
    assert p.ents + Flat([]) == p.ents;
  }

  lemma FlatMid(a: seq<LeafPage>, m: seq<LeafPage>, b: seq<LeafPage>)
    ensures Flat(a + m + b) == Flat(a) + Flat(m) + Flat(b)
  {
    FlatApp(a + m, b);
    FlatApp(a, m);
  }

  ghost function Splice(ps: seq<LeafPage>, i: nat, repl: seq<LeafPage>): seq<LeafPage> {
    if i < |ps| then ps[..i] + repl + ps[i + 1..] else ps
  }

  lemma SpliceMid(a: seq<LeafPage>, b: seq<LeafPage>, c: seq<LeafPage>, i: nat, repl: seq<LeafPage>)
    requires i < |b|
    ensures Splice(a + b + c, |a| + i, repl) == a + Splice(b, i, repl) + c
  {
  }

  lemma FlatSplice(ps: seq<LeafPage>, i: nat, repl: seq<LeafPage>)
    requires i < |ps|
    ensures Flat(Splice(ps, i, repl)) == Flat(ps[..i]) + Flat(repl) + Flat(ps[i + 1..])
    ensures Flat(ps) == Flat(ps[..i]) + ps[i].ents + Flat(ps[i + 1..])
  {
    FlatMid(ps[..i], repl, ps[i + 1..]);
    SplitAt(ps, i);
    FlatMid(ps[..i], [ps[i]], ps[i + 1..]);
    FlatOne(ps[i]);
  }

  lemma FlatRepl(p: LeafPage, e: Entry, np: nat)
    ensures Flat(Repl(p, e, np)) == Place(p.ents, e)
  {
    var s := Place(p.ents, e);
    if |p.ents| < LEAF_MAX {
      FlatOne(LeafPage(p.pg, s));
    } else {
      FlatOne(LeafPage(p.pg, s[..128]));
      FlatOne(LeafPage(np, s[128..]));
      FlatApp([LeafPage(p.pg, s[..128])], [LeafPage(np, s[128..])]);
      assert s == s[..128] + s[128..];
    }
  }

  // ---- key bounds

  ghost predicate AllLe(es: seq<Entry>, k: int) { forall i :: 0 <= i < |es| ==> es[i].key <= k }
  ghost predicate AllGe(es: seq<Entry>, k: int) { forall i :: 0 <= i < |es| ==> k <= es[i].key }
  ghost predicate AllGt(es: seq<Entry>, k: int) { forall i :: 0 <= i < |es| ==> k < es[i].key }

  // The keys ascend.
  ghost predicate Sorted(es: seq<Entry>) { forall i, j :: 0 <= i < j < |es| ==> es[i].key <= es[j].key }

  ghost predicate InOrder(ks: seq<int>, i: nat, j: nat) { i < j < |ks| ==> ks[i] <= ks[j] }

  ghost predicate SortedKeys(ks: seq<int>) {
    forall i: nat, j: nat {:trigger InOrder(ks, i, j)} :: InOrder(ks, i, j)
  }

  lemma AllApp(a: seq<Entry>, b: seq<Entry>, k: int)
    ensures AllLe(a + b, k) <==> AllLe(a, k) && AllLe(b, k)
    ensures AllGe(a + b, k) <==> AllGe(a, k) && AllGe(b, k)
    ensures AllGt(a + b, k) <==> AllGt(a, k) && AllGt(b, k)
  {
    assert forall i :: 0 <= i < |b| ==> (a + b)[|a| + i] == b[i];
    assert forall i :: 0 <= i < |a| ==> (a + b)[i] == a[i];
  }

  lemma PlaceSorted(s: seq<Entry>, e: Entry)
    requires Sorted(s)
    ensures Sorted(Place(s, e))
  {
  }

  lemma PlaceAll(s: seq<Entry>, e: Entry, k: int)
    ensures AllLe(Place(s, e), k) <==> AllLe(s, k) && e.key <= k
    ensures AllGe(Place(s, e), k) <==> AllGe(s, k) && k <= e.key
  {
    var p := EntSlot(s, e.key);
    AllApp(s[..p] + [e], s[p..], k);
    AllApp(s[..p], [e], k);
    AllApp(s[..p], s[p..], k);
    assert s == s[..p] + s[p..];
    assert [e][0] == e;
  }

  lemma EntSlotUnique(s: seq<Entry>, k: int, p: nat)
    requires p <= |s|
    requires forall i :: 0 <= i < p ==> s[i].key <= k
    requires p < |s| ==> k < s[p].key
    ensures EntSlot(s, k) == p
  {
  }

  lemma PlaceAfter(a: seq<Entry>, s: seq<Entry>, e: Entry)
    requires AllLe(a, e.key)
    ensures Place(a + s, e) == a + Place(s, e)
  {
    EntSlotUnique(a + s, e.key, |a| + EntSlot(s, e.key));
  }

  lemma PlaceBefore(s: seq<Entry>, c: seq<Entry>, e: Entry)
    requires AllGt(c, e.key)
    ensures Place(s + c, e) == Place(s, e) + c
  {
    EntSlotUnique(s + c, e.key, EntSlot(s, e.key));
  }

  // An entry goes between what is at most its key and what is greater.
  lemma PlaceMid(a: seq<Entry>, b: seq<Entry>, c: seq<Entry>, e: Entry)
    requires AllLe(a, e.key) && AllGt(c, e.key)
    ensures Place(a + b + c, e) == a + Place(b, e) + c
  {
    PlaceBefore(a + b, c, e);
    PlaceAfter(a, b, e);
  }

  // ---- the order invariant

  // Separators sorted, and left subtree <= separator <= right subtree; ls[i] are the leaves under child i.
  ghost predicate OrderedKids(seps: seq<int>, ls: seq<seq<LeafPage>>) {
    && |ls| == |seps| + 1
    && SortedKeys(seps)
    && forall i: nat {:trigger OrderedAt(seps, ls, i)} :: OrderedAt(seps, ls, i)
  }

  ghost predicate OrderedAt(seps: seq<int>, ls: seq<seq<LeafPage>>, i: nat) {
    i < |seps| && i + 1 < |ls| ==> AllLe(Flat(ls[i]), seps[i]) && AllGe(Flat(ls[i + 1]), seps[i])
  }

  ghost predicate Ordered(t: Tree)
    decreases t
  {
    match t
    case Leaf(p) => Sorted(p.ents)
    case Node(_, seps, kids) =>
      OrderedKids(seps, Each(kids)) && forall i :: 0 <= i < |kids| ==> Ordered(kids[i])
  }

  ghost predicate AllOrdered(ts: seq<Tree>) {
    forall i :: 0 <= i < |ts| ==> Ordered(ts[i])
  }

  lemma {:induction false} JoinLe(ls: seq<seq<LeafPage>>, k: int)
    requires forall i :: 0 <= i < |ls| ==> AllLe(Flat(ls[i]), k)
    ensures AllLe(Flat(Join(ls)), k)
  {
    if ls != [] {
      JoinLe(ls[1..], k);
      FlatApp(ls[0], Join(ls[1..]));
      AllApp(Flat(ls[0]), Flat(Join(ls[1..])), k);
    }
  }

  lemma {:induction false} JoinGe(ls: seq<seq<LeafPage>>, k: int)
    requires forall i :: 0 <= i < |ls| ==> AllGe(Flat(ls[i]), k)
    ensures AllGe(Flat(Join(ls)), k)
  {
    if ls != [] {
      JoinGe(ls[1..], k);
      FlatApp(ls[0], Join(ls[1..]));
      AllApp(Flat(ls[0]), Flat(Join(ls[1..])), k);
    }
  }

  lemma GeGt(es: seq<Entry>, a: int, b: int)
    requires AllGe(es, a) && b < a
    ensures AllGt(es, b)
  {
  }

  lemma GeTrans(es: seq<Entry>, a: int, b: int)
    requires b <= a
    ensures AllGe(es, a) ==> AllGe(es, b)
    ensures AllLe(es, b) ==> AllLe(es, a)
  {
  }

  lemma KidsBelow(seps: seq<int>, ls: seq<seq<LeafPage>>, m: nat, k: int)
    requires OrderedKids(seps, ls) && m <= |seps|
    requires m > 0 ==> seps[m - 1] <= k
    ensures AllLe(Flat(Join(ls[..m])), k)
  {
    forall i | 0 <= i < m ensures AllLe(Flat(ls[..m][i]), k) {
      assert InOrder(seps, i, m - 1) && OrderedAt(seps, ls, i);
      GeTrans(Flat(ls[i]), k, seps[i]);
    }
    JoinLe(ls[..m], k);
  }

  lemma KidsAbove(seps: seq<int>, ls: seq<seq<LeafPage>>, m: nat)
    requires OrderedKids(seps, ls) && 0 < m < |ls|
    ensures AllGe(Flat(Join(ls[m..])), seps[m - 1])
  {
    forall i | 0 <= i < |ls| - m ensures AllGe(Flat(ls[m..][i]), seps[m - 1]) {
      assert InOrder(seps, m - 1, m + i - 1) && OrderedAt(seps, ls, m + i - 1);
      GeTrans(Flat(ls[m + i]), seps[m + i - 1], seps[m - 1]);
    }
    JoinGe(ls[m..], seps[m - 1]);
  }

  lemma NothingAbove(ls: seq<seq<LeafPage>>, k: int)
    ensures AllGt(Flat(Join(ls[|ls|..])), k)
  {
    assert ls[|ls|..] == [];
  }

  lemma {:induction false} Occupied(t: Tree, h: nat)
    requires Shape(t, h, false)
    ensures |Ents(t)| >= 128
    decreases h
  {
    match t
    case Leaf(p) => FlatOne(p);
    case Node(_, seps, kids) =>
      Occupied(kids[0], h - 1);
      LeavesNode(t);
      JoinAt(Each(kids), 0);
      FlatMid(Join(Each(kids)[..0]), Leaves(kids[0]), Join(Each(kids)[1..]));
  }

  // ---- where an insertion lands

  ghost function TargetPos(t: Tree, e: Entry): nat
    decreases t
  {
    match t
    case Leaf(_) => 0
    case Node(_, seps, kids) =>
      if |kids| != |seps| + 1 then 0 else
      var ci := Slot(seps, e.key);
      |Join(Each(kids)[..ci])| + TargetPos(kids[ci], e)
  }

  lemma {:induction false} TargetAt(t: Tree, h: nat, root: bool, e: Entry)
    requires Shape(t, h, root)
    ensures TargetPos(t, e) < |Leaves(t)| && Leaves(t)[TargetPos(t, e)] == Target(t, e)
    decreases h
  {
    if t.Node? {
      var ci := Slot(t.seps, e.key);
      TargetAt(t.kids[ci], h - 1, false, e);
      LeavesNode(t);
      JoinAt(Each(t.kids), ci);
    }
  }

  lemma SidesMid(a: seq<LeafPage>, b: seq<LeafPage>, d: seq<LeafPage>, q: nat)
    requires q < |b|
    ensures Flat((a + b + d)[..|a| + q]) == Flat(a) + Flat(b[..q])
    ensures Flat((a + b + d)[|a| + q + 1..]) == Flat(b[q + 1..]) + Flat(d)
  {
    assert (a + b + d)[..|a| + q] == a + b[..q];
    assert (a + b + d)[|a| + q + 1..] == b[q + 1..] + d;
    FlatApp(a, b[..q]);
    FlatApp(b[q + 1..], d);
  }

  lemma TargetRightNode(seps: seq<int>, ls: seq<seq<LeafPage>>, ci: nat, q: nat, k: int)
    requires OrderedKids(seps, ls) && ci == Slot(seps, k) && q < |ls[ci]|
    requires AllLe(Flat(ls[ci][..q]), k) && AllGt(Flat(ls[ci][q + 1..]), k)
    ensures var p := |Join(ls[..ci])| + q;
            && p < |Join(ls)|
            && AllLe(Flat(Join(ls)[..p]), k) && AllGt(Flat(Join(ls)[p + 1..]), k)
  {
    hide Flat;
    var a, b, d := Join(ls[..ci]), ls[ci], Join(ls[ci + 1..]);
    KidsBelow(seps, ls, ci, k);
    if ci < |seps| {
      KidsAbove(seps, ls, ci + 1);
      GeGt(Flat(d), seps[ci], k);
    } else {
      NothingAbove(ls, k);
    }
    AllApp(Flat(a), Flat(b[..q]), k);
    AllApp(Flat(b[q + 1..]), Flat(d), k);
    JoinAt(ls, ci);
    SidesMid(a, b, d, q);
  }

  // The descent finds the one leaf where the entry belongs: after every key <= it, before every greater.
  lemma {:induction false} TargetRight(t: Tree, h: nat, root: bool, e: Entry)
    requires Shape(t, h, root) && Ordered(t)
    ensures TargetPos(t, e) < |Leaves(t)|
    ensures AllLe(Flat(Leaves(t)[..TargetPos(t, e)]), e.key)
    ensures AllGt(Flat(Leaves(t)[TargetPos(t, e) + 1..]), e.key)
    decreases h
  {
    hide Join;
    TargetAt(t, h, root, e);
    if t.Node? {
      var ci := Slot(t.seps, e.key);
      TargetRight(t.kids[ci], h - 1, false, e);
      TargetRightNode(t.seps, Each(t.kids), ci, TargetPos(t.kids[ci], e), e.key);
      LeavesNode(t);
    }
  }

  // The leaves an insertion ought to leave behind, in order.
  ghost function Wanted(t: Tree, e: Entry, np: nat): seq<LeafPage> {
    Splice(Leaves(t), TargetPos(t, e), Repl(Target(t, e), e, np))
  }

  lemma WantedEnts(t: Tree, h: nat, root: bool, e: Entry, np: nat)
    requires Shape(t, h, root) && Ordered(t)
    ensures Flat(Wanted(t, e, np)) == Place(Ents(t), e)
  {
    TargetAt(t, h, root, e);
    TargetRight(t, h, root, e);
    var p := TargetPos(t, e);
    var page := Target(t, e);
    FlatSplice(Leaves(t), p, Repl(page, e, np));
    FlatRepl(page, e, np);
    PlaceMid(Flat(Leaves(t)[..p]), page.ents, Flat(Leaves(t)[p + 1..]), e);
  }

  lemma WantedAt(t: Tree, h: nat, e: Entry, np: nat, ci: nat)
    requires t.Node? && |t.kids| == |t.seps| + 1 && ci == Slot(t.seps, e.key) && Shape(t.kids[ci], h, false)
    ensures Wanted(t, e, np) == Join(Each(t.kids)[..ci]) + Wanted(t.kids[ci], e, np) + Join(Each(t.kids)[ci + 1..])
  {
    TargetAt(t.kids[ci], h, false, e);
    LeavesNode(t);
    JoinAt(Each(t.kids), ci);
    SpliceMid(Join(Each(t.kids)[..ci]), Leaves(t.kids[ci]), Join(Each(t.kids)[ci + 1..]),
              TargetPos(t.kids[ci], e), Repl(Target(t, e), e, np));
  }

  // ---- the separator a full page pushes up

  ghost function Promoted(t: Tree, e: Entry): Option<int>
    decreases t
  {
    match t
    case Leaf(p) => if |p.ents| < LEAF_MAX then None else Some(Place(p.ents, e)[128].key)
    case Node(_, seps, kids) =>
      if |kids| != |seps| + 1 then None else
      match Promoted(kids[Slot(seps, e.key)], e)
      case None => None
      case Some(mk) => if |seps| < INT_MAX then None else Some(SepsWith(seps, mk)[(|seps| + 1) / 2])
  }

  lemma {:induction false} PromotedIs(t: Tree, e: Entry, np: nat)
    ensures var g := Ins(t, e, np); Promoted(t, e) == if g.Split? then Some(g.mk) else None
    decreases t
  {
    if t.Node? && |t.kids| == |t.seps| + 1 {
      PromotedIs(t.kids[Slot(t.seps, e.key)], e, np);
    }
  }

  lemma MidSep(seps: seq<int>, mk: int)
    requires |seps| == INT_MAX
    ensures SepsWith(seps, mk)[170]
         == (var p := Slot(seps, mk); if p == 170 then mk else if p < 170 then seps[169] else seps[170])
  {
  }

  // A separator lies between bounds on the keys around it.
  lemma SepBounds(seps: seq<int>, ls: seq<seq<LeafPage>>, i: nat, b: int)
    requires OrderedKids(seps, ls) && i < |seps| && Flat(ls[i]) != [] && Flat(ls[i + 1]) != []
    ensures AllGe(Flat(Join(ls)), b) ==> b <= seps[i]
    ensures AllLe(Flat(Join(ls)), b) ==> seps[i] <= b
  {
    KidBound(ls, i, b);
    KidBound(ls, i + 1, b);
    assert OrderedAt(seps, ls, i);
    assert Flat(ls[i])[0].key <= seps[i] <= Flat(ls[i + 1])[0].key;
  }

  lemma KidBound(ls: seq<seq<LeafPage>>, i: nat, b: int)
    requires i < |ls|
    ensures AllGe(Flat(Join(ls)), b) ==> AllGe(Flat(ls[i]), b)
    ensures AllLe(Flat(Join(ls)), b) ==> AllLe(Flat(ls[i]), b)
  {
    var a, d := Join(ls[..i]), Join(ls[i + 1..]);
    JoinAt(ls, i);
    FlatMid(a, ls[i], d);
    AllApp(Flat(a) + Flat(ls[i]), Flat(d), b);
    AllApp(Flat(a), Flat(ls[i]), b);
  }

  // A bound on the keys in a page's subtree and on the inserted key bounds the promoted key.
  ghost predicate Between(es: seq<Entry>, e: Entry, mk: int, b: int) {
    && (AllGe(es, b) && b <= e.key ==> b <= mk)
    && (AllLe(es, b) && e.key <= b ==> mk <= b)
  }

  lemma PromotedBoundsNode(seps: seq<int>, ls: seq<seq<LeafPage>>, ci: nat, m: int, e: Entry, b: int)
    requires OrderedKids(seps, ls) && |seps| == INT_MAX && ci < |ls|
    requires forall i :: 0 <= i < |ls| ==> Flat(ls[i]) != []
    requires Between(Flat(ls[ci]), e, m, b)
    ensures Between(Flat(Join(ls)), e, SepsWith(seps, m)[170], b)
  {
    MidSep(seps, m);
    KidBound(ls, ci, b);
    SepBounds(seps, ls, 169, b);
    SepBounds(seps, ls, 170, b);
  }

  lemma EachOccupied(kids: seq<Tree>, h: nat)
    requires AllShape(kids, h)
    ensures forall i :: 0 <= i < |kids| ==> Flat(Each(kids)[i]) != []
  {
    forall i | 0 <= i < |kids| ensures Flat(Each(kids)[i]) != [] { Occupied(kids[i], h); }
  }

  lemma PromotedBoundsLeaf(p: LeafPage, e: Entry, b: int)
    requires |p.ents| == LEAF_MAX
    ensures Between(Flat([p]), e, Place(p.ents, e)[128].key, b)
  {
    FlatOne(p);
    PlaceAll(p.ents, e, b);
  }

  lemma PromotedUp(t: Tree, h: nat, root: bool, e: Entry, ci: nat, m: int, b: int)
    requires Shape(t, h, root) && Ordered(t) && t.Node? && ci < |t.kids| && |t.seps| == INT_MAX
    requires Between(Ents(t.kids[ci]), e, m, b)
    ensures Between(Ents(t), e, SepsWith(t.seps, m)[170], b)
  {
    EachOccupied(t.kids, h - 1);
    PromotedBoundsNode(t.seps, Each(t.kids), ci, m, e, b);
    LeavesNode(t);
  }

  lemma {:induction false} PromotedBounds(t: Tree, h: nat, root: bool, e: Entry, mk: int, b: int)
    requires Shape(t, h, root) && Ordered(t) && Promoted(t, e) == Some(mk)
    ensures Between(Ents(t), e, mk, b)
    decreases h
  {
    if t.Leaf? {
      PromotedBoundsLeaf(t.page, e, b);
    } else {
      var ci := Slot(t.seps, e.key);
      var m := Promoted(t.kids[ci], e).value;
      PromotedBounds(t.kids[ci], h - 1, false, e, m, b);
      PromotedUp(t, h, root, e, ci, m, b);
    }
  }

  // ---- the exact condition

  // Somewhere on the way down, a full page would push up exactly the separator to its right.
  ghost predicate Clash(t: Tree, e: Entry)
    decreases t
  {
    t.Node? && |t.kids| == |t.seps| + 1 &&
    var ci := Slot(t.seps, e.key);
    Clash(t.kids[ci], e) || (ci < |t.seps| && Promoted(t.kids[ci], e) == Some(t.seps[ci]))
  }

  lemma SlotBetween(seps: seq<int>, ci: nat, mk: int)
    requires SortedKeys(seps) && ci <= |seps|
    requires ci > 0 ==> seps[ci - 1] <= mk
    requires ci < |seps| ==> mk <= seps[ci]
    ensures ci <= Slot(seps, mk)
    ensures Slot(seps, mk) == ci <==> !(ci < |seps| && mk == seps[ci])
  {
    forall i: nat | i < ci ensures seps[i] <= mk { assert InOrder(seps, i, ci - 1); }
  }

  // The parent's second search never goes left of the child it descended into, and goes right of
  // it exactly when the promoted key equals the next separator.
  lemma SlotOfPromoted(seps: seq<int>, ls: seq<seq<LeafPage>>, c: Tree, h: nat, ci: nat, e: Entry, mk: int)
    requires OrderedKids(seps, ls) && ci == Slot(seps, e.key) && ls[ci] == Leaves(c)
    requires Shape(c, h, false) && Ordered(c) && Promoted(c, e) == Some(mk)
    ensures ci <= Slot(seps, mk)
    ensures (ci > 0 ==> seps[ci - 1] <= mk) && (ci < |seps| ==> mk <= seps[ci])
    ensures Slot(seps, mk) == ci <==> !(ci < |seps| && mk == seps[ci])
  {
    if ci > 0 {
      assert OrderedAt(seps, ls, ci - 1);
      PromotedBounds(c, h, false, e, mk, seps[ci - 1]);
    }
    if ci < |seps| {
      assert OrderedAt(seps, ls, ci);
      PromotedBounds(c, h, false, e, mk, seps[ci]);
    }
    SlotBetween(seps, ci, mk);
  }

  // ---- an insertion without a clash keeps everything in order

  ghost predicate GOrdered(g: Grown) {
    match g
    case Kept(t, _) => Ordered(t)
    case Split(l, mk, r, _) => Ordered(l) && Ordered(r) && AllLe(Ents(l), mk) && AllGe(Ents(r), mk)
  }

  lemma SwapOrdered(seps: seq<int>, ls: seq<seq<LeafPage>>, ci: nat, e: Entry, l: seq<LeafPage>)
    requires OrderedKids(seps, ls) && ci == Slot(seps, e.key)
    requires Flat(l) == Place(Flat(ls[ci]), e)
    ensures OrderedKids(seps, ls[ci := l])
  {
    var ks := ls[ci := l];
    forall i: nat ensures OrderedAt(seps, ks, i) {
      assert OrderedAt(seps, ls, i);
      if i < |seps| { PlaceAll(Flat(ls[ci]), e, seps[i]); }
    }
  }

  lemma SepsSorted(seps: seq<int>, mk: int)
    requires SortedKeys(seps)
    ensures SortedKeys(SepsWith(seps, mk))
  {
    var p := Slot(seps, mk);
    forall i: nat, j: nat ensures InOrder(SepsWith(seps, mk), i, j) {
      assert InOrder(seps, if i > p then i - 1 else i, if j > p then j - 1 else j);
    }
  }

  lemma GrownAt(seps: seq<int>, ls: seq<seq<LeafPage>>, ci: nat, l: seq<LeafPage>, mk: int, r: seq<LeafPage>, i: nat)
    requires |ls| == |seps| + 1 && ci < |ls| && Slot(seps, mk) == ci && i <= |ls|
    ensures With(ls[ci := l], ci, r)[i]
         == if i < ci then ls[i] else if i == ci then l else if i == ci + 1 then r else ls[i - 1]
    ensures i < |ls| ==>
            SepsWith(seps, mk)[i] == if i < ci then seps[i] else if i == ci then mk else seps[i - 1]
  {
  }

  lemma GrowOrdered(seps: seq<int>, ls: seq<seq<LeafPage>>, ci: nat, l: seq<LeafPage>, mk: int, r: seq<LeafPage>)
    requires OrderedKids(seps, ls) && ci < |ls| && Slot(seps, mk) == ci
    requires AllLe(Flat(l), mk) && AllGe(Flat(r), mk)
    requires ci > 0 ==> AllGe(Flat(l), seps[ci - 1])
    requires ci < |seps| ==> AllLe(Flat(r), seps[ci])
    ensures OrderedKids(SepsWith(seps, mk), With(ls[ci := l], ci, r))
  {
    var ss, ks := SepsWith(seps, mk), With(ls[ci := l], ci, r);
    SepsSorted(seps, mk);
    forall i: nat ensures OrderedAt(ss, ks, i) {
      if i < |ss| {
        GrownAt(seps, ls, ci, l, mk, r, i);
        GrownAt(seps, ls, ci, l, mk, r, i + 1);
        assert OrderedAt(seps, ls, i) && (i > 0 ==> OrderedAt(seps, ls, i - 1));
      }
    }
  }

  lemma SwapAllOrdered(kids: seq<Tree>, ci: nat, c: Tree)
    requires AllOrdered(kids) && ci < |kids| && Ordered(c)
    ensures AllOrdered(kids[ci := c])
  {
  }

  lemma WithAllOrdered(kids: seq<Tree>, p: nat, r: Tree)
    requires AllOrdered(kids) && p < |kids| && Ordered(r)
    ensures AllOrdered(With(kids, p, r))
  {
    var ks := With(kids, p, r);
    forall i | 0 <= i < |ks| ensures Ordered(ks[i]) {
      if i > p + 1 { assert ks[i] == kids[i - 1]; }
    }
  }

  lemma SliceOrdered(ss: seq<int>, ls: seq<seq<LeafPage>>, a: nat, b: nat)
    requires OrderedKids(ss, ls) && a <= b <= |ss|
    ensures OrderedKids(ss[a..b], ls[a..b + 1])
  {
    var ss', ls' := ss[a..b], ls[a..b + 1];
    forall i: nat, j: nat ensures InOrder(ss', i, j) { assert InOrder(ss, a + i, a + j); }
    forall i: nat ensures OrderedAt(ss', ls', i) { assert OrderedAt(ss, ls, a + i); }
  }

  lemma SliceOrderedEnd(ss: seq<int>, ls: seq<seq<LeafPage>>, a: nat)
    requires OrderedKids(ss, ls) && a <= |ss|
    ensures OrderedKids(ss[a..], ls[a..])
  {
    SliceOrdered(ss, ls, a, |ss|);
    assert ls[a..|ss| + 1] == ls[a..] && ss[a..|ss|] == ss[a..];
  }

  lemma NodeOrdered(pg: nat, ss: seq<int>, ks: seq<Tree>)
    requires OrderedKids(ss, Each(ks)) && AllOrdered(ks)
    ensures Ordered(Node(pg, ss, ks)) && Ents(Node(pg, ss, ks)) == Flat(Join(Each(ks)))
  {
    LeavesNode(Node(pg, ss, ks));
  }

  lemma CutOrderedLeft(pg: nat, ss: seq<int>, ks: seq<Tree>, mid: nat)
    requires OrderedKids(ss, Each(ks)) && AllOrdered(ks) && mid < |ss|
    ensures var l := Node(pg, ss[..mid], ks[..mid + 1]); Ordered(l) && AllLe(Ents(l), ss[mid])
  {
    EachCut(ks, mid + 1);
    KidsBelow(ss, Each(ks), mid + 1, ss[mid]);
    SliceOrdered(ss, Each(ks), 0, mid);
    NodeOrdered(pg, ss[..mid], ks[..mid + 1]);
  }

  lemma CutOrderedRight(np: nat, ss: seq<int>, ks: seq<Tree>, mid: nat)
    requires OrderedKids(ss, Each(ks)) && AllOrdered(ks) && mid < |ss|
    ensures var r := Node(np, ss[mid + 1..], ks[mid + 1..]); Ordered(r) && AllGe(Ents(r), ss[mid])
  {
    EachCut(ks, mid + 1);
    KidsAbove(ss, Each(ks), mid + 1);
    SliceOrderedEnd(ss, Each(ks), mid + 1);
    NodeOrdered(np, ss[mid + 1..], ks[mid + 1..]);
  }

  lemma CutOrdered(pg: nat, ss: seq<int>, ks: seq<Tree>, np: nat)
    requires OrderedKids(ss, Each(ks)) && AllOrdered(ks)
    ensures GOrdered(Cut(pg, ss, ks, np))
  {
    if |ss| > INT_MAX {
      var mid := |ss| / 2;
      CutOrderedLeft(pg, ss, ks, mid);
      CutOrderedRight(np, ss, ks, mid);
      var l, r := Node(pg, ss[..mid], ks[..mid + 1]), Node(np, ss[mid + 1..], ks[mid + 1..]);
      assert Cut(pg, ss, ks, np) == Split(l, ss[mid], r, np + 1);
    } else {
      NodeOrdered(pg, ss, ks);
    }
  }

  lemma LeafOrdered(p: LeafPage, e: Entry, np: nat)
    requires Sorted(p.ents)
    ensures GLeaves(LeafIns(p, e, np)) == Wanted(Leaf(p), e, np) && GOrdered(LeafIns(p, e, np))
  {
    PlaceSorted(p.ents, e);
    assert Leaves(Leaf(p)) == [p];
    var g := LeafIns(p, e, np);
    if g.Split? {
      FlatOne(g.l.page);
      FlatOne(g.r.page);
    }
  }

  lemma Regroup<T>(a: seq<T>, b: seq<T>, m: seq<T>, c: seq<T>, d: seq<T>)
    requires m == []
    ensures a + b + m + c + d == a + (b + c) + d
  {
    assert a + b + m == a + b;
  }

  // The leaves at a page whose child ci split, when its second search stopped at slot p.
  lemma GrownAround(ls: seq<seq<LeafPage>>, ci: nat, l: seq<LeafPage>, p: nat, r: seq<LeafPage>)
    requires ci <= p < |ls|
    ensures Join(With(ls[ci := l], p, r))
         == Join(ls[..ci]) + l + Join(ls[ci + 1..p + 1]) + r + Join(ls[p + 1..])
  {
    var ks := ls[ci := l];
    WithJoin(ks, p, r);
    assert ks[p + 1..] == ls[p + 1..];
    assert ks[..p + 1] == ls[..ci] + [l] + ls[ci + 1..p + 1];
    JoinMid(ls[..ci], l, ls[ci + 1..p + 1]);
  }

  lemma GrownInPlace(ls: seq<seq<LeafPage>>, ci: nat, l: seq<LeafPage>, r: seq<LeafPage>)
    requires ci < |ls|
    ensures Join(With(ls[ci := l], ci, r)) == Join(ls[..ci]) + (l + r) + Join(ls[ci + 1..])
  {
    GrownAround(ls, ci, l, ci, r);
    assert ls[ci + 1..ci + 1] == [];
    Regroup(Join(ls[..ci]), l, Join(ls[ci + 1..ci + 1]), r, Join(ls[ci + 1..]));
  }

  lemma KeptOrdered(t: Tree, h: nat, e: Entry, np: nat, ci: nat, g: Grown)
    requires t.Node? && ci == Slot(t.seps, e.key) && OrderedKids(t.seps, Each(t.kids))
    requires AllOrdered(t.kids) && Shape(t.kids[ci], h, false)
    requires g.Kept? && g == Ins(t.kids[ci], e, np) && GLeaves(g) == Wanted(t.kids[ci], e, np) && GOrdered(g)
    ensures GLeaves(Ins(t, e, np)) == Wanted(t, e, np) && GOrdered(Ins(t, e, np))
  {
    WantedEnts(t.kids[ci], h, false, e, np);
    SwapOrdered(t.seps, Each(t.kids), ci, e, Leaves(g.t));
    SwapAllOrdered(t.kids, ci, g.t);
    EachSwap(t.kids, ci, g.t);
    NodeOrdered(t.pg, t.seps, t.kids[ci := g.t]);
    WantedAt(t, h, e, np, ci);
    SwapJoin(Each(t.kids), ci, Leaves(g.t));
  }

  // Bounds on the two halves of a split child.
  lemma HalvesBounds(es: seq<Entry>, e: Entry, l: seq<LeafPage>, r: seq<LeafPage>, k: int)
    requires Flat(l + r) == Place(es, e)
    ensures AllGe(es, k) && k <= e.key ==> AllGe(Flat(l), k)
    ensures AllLe(es, k) && e.key <= k ==> AllLe(Flat(r), k)
  {
    FlatApp(l, r);
    PlaceAll(es, e, k);
    AllApp(Flat(l), Flat(r), k);
  }

  lemma SplitOrdered(t: Tree, h: nat, e: Entry, np: nat, ci: nat, g: Grown)
    requires t.Node? && ci == Slot(t.seps, e.key) && OrderedKids(t.seps, Each(t.kids))
    requires AllOrdered(t.kids) && Shape(t.kids[ci], h, false)
    requires g.Split? && g == Ins(t.kids[ci], e, np) && GLeaves(g) == Wanted(t.kids[ci], e, np) && GOrdered(g)
    requires Slot(t.seps, g.mk) == ci
    ensures GLeaves(Ins(t, e, np)) == Wanted(t, e, np) && GOrdered(Ins(t, e, np))
  {
    var seps, kids, ls := t.seps, t.kids, Each(t.kids);
    WantedEnts(kids[ci], h, false, e, np);
    if ci > 0 {
      assert OrderedAt(seps, ls, ci - 1);
      HalvesBounds(Flat(ls[ci]), e, Leaves(g.l), Leaves(g.r), seps[ci - 1]);
    }
    if ci < |seps| {
      assert OrderedAt(seps, ls, ci);
      HalvesBounds(Flat(ls[ci]), e, Leaves(g.l), Leaves(g.r), seps[ci]);
    }
    GrowOrdered(seps, ls, ci, Leaves(g.l), g.mk, Leaves(g.r));
    EachSwap(kids, ci, g.l);
    EachWith(kids[ci := g.l], ci, g.r);
    SwapAllOrdered(kids, ci, g.l);
    WithAllOrdered(kids[ci := g.l], ci, g.r);
    CutOrdered(t.pg, SepsWith(seps, g.mk), With(kids[ci := g.l], ci, g.r), g.np);
    StepLeaves(t, e, np, ci, g);
    WantedAt(t, h, e, np, ci);
    GrownInPlace(ls, ci, Leaves(g.l), Leaves(g.r));
  }

  lemma NodeStep(t: Tree, h: nat, e: Entry, np: nat, ci: nat, g: Grown)
    requires t.Node? && ci == Slot(t.seps, e.key) && OrderedKids(t.seps, Each(t.kids))
    requires AllOrdered(t.kids) && Shape(t.kids[ci], h, false)
    requires g == Ins(t.kids[ci], e, np) && GLeaves(g) == Wanted(t.kids[ci], e, np) && GOrdered(g)
    requires !(ci < |t.seps| && Promoted(t.kids[ci], e) == Some(t.seps[ci]))
    ensures GLeaves(Ins(t, e, np)) == Wanted(t, e, np) && GOrdered(Ins(t, e, np))
  {
    if g.Kept? {
      KeptOrdered(t, h, e, np, ci, g);
    } else {
      PromotedIs(t.kids[ci], e, np);
      SlotOfPromoted(t.seps, Each(t.kids), t.kids[ci], h, ci, e, g.mk);
      SplitOrdered(t, h, e, np, ci, g);
    }
  }

  // Without a clash, exactly the target leaf is replaced, in place, and the order invariant holds.
  lemma {:induction false} InsOrdered(t: Tree, h: nat, root: bool, e: Entry, np: nat)
    requires Shape(t, h, root) && Ordered(t) && !Clash(t, e)
    ensures GLeaves(Ins(t, e, np)) == Wanted(t, e, np) && GOrdered(Ins(t, e, np))
    decreases h
  {
    if t.Leaf? {
      LeafOrdered(t.page, e, np);
    } else {
      var ci := Slot(t.seps, e.key);
      var g := Ins(t.kids[ci], e, np);
      InsOrdered(t.kids[ci], h - 1, false, e, np);
      NodeStep(t, h - 1, e, np, ci, g);
    }
  }

  // ---- an insertion with a clash puts leaves out of order

  ghost predicate Before<T>(s: seq<T>, x: T, y: T) {
    exists i, j :: 0 <= i < j < |s| && s[i] == x && s[j] == y
  }

  lemma BeforeWiden<T>(a: seq<T>, l: seq<T>, m: seq<T>, r: seq<T>, c: seq<T>, x: T, y: T)
    requires Before(l + r, x, y)
    ensures Before(a + l + m + r + c, x, y)
  {
    var i, j :| 0 <= i < j < |l + r| && (l + r)[i] == x && (l + r)[j] == y;
    var w := a + l + m + r + c;
    var i' := if i < |l| then |a| + i else |a| + |m| + i;
    var j' := if j < |l| then |a| + j else |a| + |m| + j;
    assert w[i'] == x && w[j'] == y;
  }

  lemma BeforeMid<T>(a: seq<T>, b: seq<T>, c: seq<T>, x: T, y: T)
    requires Before(b, x, y)
    ensures Before(a + b + c, x, y)
  {
    var i, j :| 0 <= i < j < |b| && b[i] == x && b[j] == y;
    var w := a + b + c;
    assert w[|a| + i] == x && w[|a| + j] == y;
  }

  lemma BeforeJoin<T>(a: seq<T>, m: seq<T>, r: seq<T>, c: seq<T>, x: T, y: T)
    requires x in m && y in r
    ensures Before(a + m + r, x, y) && Before(a + m + r + c, x, y)
  {
    var i :| 0 <= i < |m| && m[i] == x;
    var j :| 0 <= j < |r| && r[j] == y;
    var v, w := a + m + r, a + m + r + c;
    assert v[|a| + i] == x && v[|a| + |m| + j] == y;
    assert w[|a| + i] == x && w[|a| + |m| + j] == y;
  }

  lemma SomeLeaf(t: Tree, h: nat)
    requires Shape(t, h, false)
    ensures Leaves(t) != []
  {
    Occupied(t, h);
  }

  lemma ClashUp(t: Tree, h: nat, e: Entry, np: nat, ci: nat, g: Grown, x: LeafPage, y: LeafPage)
    requires t.Node? && OrderedKids(t.seps, Each(t.kids))
    requires ci == Slot(t.seps, e.key) && g == Ins(t.kids[ci], e, np)
    requires Shape(t.kids[ci], h, false) && Ordered(t.kids[ci])
    requires Before(GLeaves(g), x, y) && Before(Wanted(t.kids[ci], e, np), y, x)
    ensures Before(GLeaves(Ins(t, e, np)), x, y) && Before(Wanted(t, e, np), y, x)
  {
    var ls := Each(t.kids);
    StepLeaves(t, e, np, ci, g);
    WantedAt(t, h, e, np, ci);
    BeforeMid(Join(ls[..ci]), Wanted(t.kids[ci], e, np), Join(ls[ci + 1..]), y, x);
    match g {
      case Kept(c, _) =>
        SwapJoin(ls, ci, Leaves(c));
        BeforeMid(Join(ls[..ci]), Leaves(c), Join(ls[ci + 1..]), x, y);
      case Split(l, mk, r, _) =>
        PromotedIs(t.kids[ci], e, np);
        SlotOfPromoted(t.seps, ls, t.kids[ci], h, ci, e, mk);
        var p := Slot(t.seps, mk);
        GrownAround(ls, ci, Leaves(l), p, Leaves(r));
        BeforeWiden(Join(ls[..ci]), Leaves(l), Join(ls[ci + 1..p + 1]), Leaves(r), Join(ls[p + 1..]), x, y);
    }
  }

  lemma JoinHas<T>(ls: seq<seq<T>>, i: nat, x: T)
    requires i < |ls| && x in ls[i]
    ensures x in Join(ls)
  {
    JoinAt(ls, i);
  }

  lemma ClashHere(t: Tree, h: nat, e: Entry, np: nat, ci: nat, g: Grown) returns (x: LeafPage, y: LeafPage)
    requires t.Node? && OrderedKids(t.seps, Each(t.kids)) && AllShape(t.kids, h)
    requires ci == Slot(t.seps, e.key) && g == Ins(t.kids[ci], e, np) && Ordered(t.kids[ci])
    requires g.Split? && GLeaves(g) == Wanted(t.kids[ci], e, np) && GShape(g, h, false)
    requires ci < Slot(t.seps, g.mk)
    ensures Before(GLeaves(Ins(t, e, np)), x, y) && Before(Wanted(t, e, np), y, x)
  {
    var ls := Each(t.kids);
    var p := Slot(t.seps, g.mk);
    SomeLeaf(g.r, h);
    SomeLeaf(t.kids[ci + 1], h);
    x, y := ls[ci + 1][0], Leaves(g.r)[0];
    var m, d := ls[ci + 1..p + 1], ls[ci + 1..];
    JoinHas(m, 0, x);
    JoinHas(d, 0, x);
    StepLeaves(t, e, np, ci, g);
    GrownAround(ls, ci, Leaves(g.l), p, Leaves(g.r));
    BeforeJoin(Join(ls[..ci]) + Leaves(g.l), Join(m), Leaves(g.r), Join(ls[p + 1..]), x, y);
    WantedAt(t, h, e, np, ci);
    BeforeJoin(Join(ls[..ci]), Wanted(t.kids[ci], e, np), Join(d), [], y, x);
  }

  lemma ClashFirst(t: Tree, h: nat, e: Entry, np: nat, ci: nat) returns (x: LeafPage, y: LeafPage)
    requires t.Node? && ci == Slot(t.seps, e.key) && OrderedKids(t.seps, Each(t.kids))
    requires AllShape(t.kids, h) && Ordered(t.kids[ci]) && !Clash(t.kids[ci], e)
    requires ci < |t.seps| && Promoted(t.kids[ci], e) == Some(t.seps[ci])
    ensures Before(GLeaves(Ins(t, e, np)), x, y) && Before(Wanted(t, e, np), y, x)
  {
    var c := t.kids[ci];
    InsOrdered(c, h, false, e, np);
    InsShape(c, h, false, e, np);
    PromotedIs(c, e, np);
    SlotOfPromoted(t.seps, Each(t.kids), c, h, ci, e, t.seps[ci]);
    x, y := ClashHere(t, h, e, np, ci, Ins(c, e, np));
  }

  // A clash leaves two leaves x, y in the tree in the opposite of the order they ought to have.
  lemma {:induction false} ClashDisorder(t: Tree, h: nat, root: bool, e: Entry, np: nat)
      returns (x: LeafPage, y: LeafPage)
    requires Shape(t, h, root) && Ordered(t) && Clash(t, e)
    ensures Before(GLeaves(Ins(t, e, np)), x, y) && Before(Wanted(t, e, np), y, x)
    decreases h
  {
    hide Ins, Each, Before;
    var ci := Slot(t.seps, e.key);
    if Clash(t.kids[ci], e) {
      x, y := ClashDisorder(t.kids[ci], h - 1, false, e, np);
      ClashUp(t, h - 1, e, np, ci, Ins(t.kids[ci], e, np), x, y);
    } else {
      assert AllShape(t.kids, h - 1);
      x, y := ClashFirst(t, h - 1, e, np, ci);
    }
  }
}
