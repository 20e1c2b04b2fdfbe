// Which index a page file stores, and how the writes of one insertion change it.

module BTreeStored {
  import opened BTreeModel
  import opened BTreeOrder
  import opened BTreeIndex
  import opened BTreePages

  type File = map<nat, Page>

  function PgsOf(kids: seq<Tree>): (r: seq<nat>)
    ensures |r| == |kids| && forall i :: 0 <= i < |kids| ==> r[i] == kids[i].Pg()
  {
    seq(|kids|, i requires 0 <= i < |kids| => kids[i].Pg())
  }

  // The file holds the pages of t. (What a leaf page holds is said by Linked.)
  ghost predicate Rep(t: Tree, f: File)
    decreases t
  {
    match t
    case Leaf(p) => p.pg in f && f[p.pg].LeafRec? && f[p.pg].ents == p.ents
    case Node(pg, seps, kids) =>
      && pg in f && f[pg] == IntRec(seps, PgsOf(kids))
      && forall i :: 0 <= i < |kids| ==> Rep(kids[i], f)
  }

  ghost predicate AllRep(ts: seq<Tree>, f: File) {
    forall i :: 0 <= i < |ts| ==> Rep(ts[i], f)
  }

  ghost predicate GRep(g: Grown, f: File) {
    match g
    case Kept(t, _) => Rep(t, f)
    case Split(l, _, r, _) => Rep(l, f) && Rep(r, f)
  }

  ghost function NextOf(chain: seq<LeafPage>, i: nat): int {
    if i + 1 < |chain| then chain[i + 1].pg else -1
  }

  ghost predicate LinkAt(chain: seq<LeafPage>, f: File, i: nat) {
    i < |chain| ==> chain[i].pg in f && f[chain[i].pg] == LeafRec(chain[i].ents, NextOf(chain, i))
  }

  // The next links of the leaf pages run along the chain.
  ghost predicate Linked(chain: seq<LeafPage>, f: File) {
    forall i: nat {:trigger LinkAt(chain, f, i)} :: LinkAt(chain, f, i)
  }

  ghost predicate Pages(f: File, np: nat) {
    forall pg: nat :: pg in f <==> pg < np
  }

  // File f stores index x.
  ghost predicate Stored(x: Index, f: File) {
    && Sound(x) && Rep(x.root, f) && Linked(x.chain, f) && Pages(f, x.np)
    && 0 in f && f[0] == Header(MAGIC, VERSION, x.root.Pg(), x.nkeys, x.np)
  }

  // The page at place i of the chain, or the mark for its end.
  function PageAt(chain: seq<LeafPage>, i: nat): int {
    if i < |chain| then chain[i].pg else -1
  }

  // The page of place i of the chain, and where it leads.
  lemma OnChain(chain: seq<LeafPage>, f: File, np: nat, i: nat)
    requires Linked(chain, f) && Pages(f, np) && i < |chain|
    ensures chain[i].pg < np && chain[i].pg in f && f[chain[i].pg].LeafRec? && f[chain[i].pg].ents == chain[i].ents
    ensures f[chain[i].pg].next == PageAt(chain, i + 1) < np
  {
    assert LinkAt(chain, f, i) && LinkAt(chain, f, i + 1);
  }

  ghost predicate Once(t: Tree) {
    forall pg: nat :: Uses(t, pg) <= 1
  }

  // The file f2 agrees with f1 on the pages of f1 that t does not use.
  ghost predicate SameOutside(t: Tree, f1: File, f2: File) {
    forall pg: nat :: pg in f1 && Uses(t, pg) == 0 ==> pg in f2 && f2[pg] == f1[pg]
  }

  lemma KidUses(pg: nat, seps: seq<int>, kids: seq<Tree>, i: nat, x: nat)
    requires i < |kids|
    ensures Uses(kids[i], x) + (if pg == x then 1 else 0) <= Uses(Node(pg, seps, kids), x)
  {
    UsesNode(pg, seps, kids, x);
    SumAt(EachUses(kids, x), i);
  }

  lemma {:induction false} SumTwo(ns: seq<nat>, i: nat, j: nat)
    requires i < j < |ns|
    ensures ns[i] + ns[j] <= Sum(ns)
  {
    SumAt(ns, j);
    SumAt(ns[..j], i);
  }

  lemma TwoUses(pg: nat, seps: seq<int>, kids: seq<Tree>, i: nat, j: nat, x: nat)
    requires i < |kids| && j < |kids| && i != j
    ensures Uses(kids[i], x) + Uses(kids[j], x) <= Uses(Node(pg, seps, kids), x)
  {
    UsesNode(pg, seps, kids, x);
    SumTwo(EachUses(kids, x), if i < j then i else j, if i < j then j else i);
  }

  // A subtree none of whose pages changed is still held.
  lemma {:induction false} RepFrame(t: Tree, f1: File, f2: File)
    requires Rep(t, f1)
    requires forall pg: nat :: pg in f1 && Uses(t, pg) > 0 ==> pg in f2 && f2[pg] == f1[pg]
    ensures Rep(t, f2)
    decreases t
  {
    match t
    case Leaf(p) => assert Uses(t, p.pg) > 0;
    case Node(pg, seps, kids) =>
      UsesNode(pg, seps, kids, pg);
      forall i | 0 <= i < |kids| ensures Rep(kids[i], f2) {
        forall q: nat | q in f1 && Uses(kids[i], q) > 0 ensures q in f2 && f2[q] == f1[q] {
          KidUses(pg, seps, kids, i, q);
        }
        RepFrame(kids[i], f1, f2);
      }
  }

  lemma SiblingsKept(t: Tree, ci: nat, c: Tree, f1: File, f2: File)
    requires t.Node? && ci < |t.kids| && AllRep(t.kids, f1) && Once(t)
    requires SameOutside(t.kids[ci], f1, f2) && Rep(c, f2)
    ensures AllRep(t.kids[ci := c], f2)
  {
    var ks := t.kids[ci := c];
    forall i | 0 <= i < |ks| ensures Rep(ks[i], f2) {
      if i != ci {
        forall q: nat | q in f1 && Uses(t.kids[i], q) > 0 ensures q in f2 && f2[q] == f1[q] {
          TwoUses(t.pg, t.seps, t.kids, i, ci, q);
        }
        RepFrame(t.kids[i], f1, f2);
      }
    }
  }

  // What a call below child ci leaves outside it is unchanged outside the whole page too.
  lemma OutsideWhole(t: Tree, ci: nat, f1: File, f2: File)
    requires t.Node? && ci < |t.kids| && SameOutside(t.kids[ci], f1, f2)
    ensures SameOutside(t, f1, f2)
  {
    forall q: nat | q in f1 && Uses(t, q) == 0 ensures q in f2 && f2[q] == f1[q] {
      KidUses(t.pg, t.seps, t.kids, ci, q);
    }
  }

  lemma OwnPageKept(t: Tree, ci: nat, f1: File, f2: File)
    requires t.Node? && ci < |t.kids| && Once(t) && t.pg in f1 && SameOutside(t.kids[ci], f1, f2)
    ensures Uses(t.kids[ci], t.pg) == 0 && t.pg in f2 && f2[t.pg] == f1[t.pg]
  {
    KidUses(t.pg, t.seps, t.kids, ci, t.pg);
  }

  // Writing a page a list of subtrees does not use keeps them held.
  lemma WriteOther(ts: seq<Tree>, f: File, pg: nat, page: Page)
    requires AllRep(ts, f) && forall i :: 0 <= i < |ts| ==> Uses(ts[i], pg) == 0
    ensures AllRep(ts, f[pg := page])
  {
    forall i | 0 <= i < |ts| ensures Rep(ts[i], f[pg := page]) {
      RepFrame(ts[i], f, f[pg := page]);
    }
  }

  lemma WriteLinked(chain: seq<LeafPage>, f: File, pg: nat, page: Page)
    requires Linked(chain, f) && (pg in f ==> !f[pg].LeafRec?)
    ensures Linked(chain, f[pg := page])
  {
    var f' := f[pg := page];
    forall i: nat ensures LinkAt(chain, f', i) {
      assert LinkAt(chain, f, i);
    }
  }

  // Replacing the leaf page at place i of the chain, and perhaps linking a new one in after it.
  ghost predicate Distinct(chain: seq<LeafPage>) {
    forall i, j :: 0 <= i < j < |chain| ==> chain[i].pg != chain[j].pg
  }

  lemma LinkOne(chain: seq<LeafPage>, f: File, i: nat, ents: seq<Entry>)
    requires Linked(chain, f) && Distinct(chain) && i < |chain|
    ensures var p := LeafPage(chain[i].pg, ents);
            Linked(Splice(chain, i, [p]), f[p.pg := LeafRec(ents, NextOf(chain, i))])
  {
    var p := LeafPage(chain[i].pg, ents);
    var f' := f[p.pg := LeafRec(ents, NextOf(chain, i))];
    var chain' := Splice(chain, i, [p]);
    assert |chain'| == |chain| && forall j :: 0 <= j < |chain| ==> chain'[j] == if j == i then p else chain[j];
    forall j: nat ensures LinkAt(chain', f', j) {
      assert LinkAt(chain, f, j);
    }
  }

  lemma LinkTwo(chain: seq<LeafPage>, f: File, i: nat, left: seq<Entry>, rno: nat, right: seq<Entry>)
    requires Linked(chain, f) && Distinct(chain) && i < |chain| && rno !in f
    ensures var p, q := LeafPage(chain[i].pg, left), LeafPage(rno, right);
            Linked(Splice(chain, i, [p, q]),
                   f[p.pg := LeafRec(left, rno)][rno := LeafRec(right, NextOf(chain, i))])
  {
    var p, q := LeafPage(chain[i].pg, left), LeafPage(rno, right);
    var f' := f[p.pg := LeafRec(left, rno)][rno := LeafRec(right, NextOf(chain, i))];
    var chain' := Splice(chain, i, [p, q]);
    assert |chain'| == |chain| + 1;
    assert forall j :: 0 <= j < |chain'| ==>
      chain'[j] == if j < i then chain[j] else if j == i then p else if j == i + 1 then q else chain[j - 1];
    forall j: nat ensures LinkAt(chain', f', j) {
      assert LinkAt(chain, f, i);
      assert LinkAt(chain, f, if j > i then j - 1 else j);
    }
  }

  lemma PgsSwap(kids: seq<Tree>, ci: nat, c: Tree)
    requires ci < |kids| && c.Pg() == kids[ci].Pg()
    ensures PgsOf(kids[ci := c]) == PgsOf(kids)
  {
  }

  lemma PgsWith(kids: seq<Tree>, p: nat, c: Tree)
    requires p < |kids|
    ensures PgsOf(With(kids, p, c)) == With(PgsOf(kids), p, c.Pg())
  {
    assert forall i :: p + 1 < i <= |kids| ==> With(kids, p, c)[i] == kids[i - 1];
  }

  // A child kept its page: the page above is not written.
  lemma KeptRep(t: Tree, ci: nat, c: Tree, f1: File, f2: File)
    requires t.Node? && ci < |t.kids| && Once(t) && Rep(t, f1)
    requires SameOutside(t.kids[ci], f1, f2) && Rep(c, f2) && c.Pg() == t.kids[ci].Pg()
    ensures Rep(Node(t.pg, t.seps, t.kids[ci := c]), f2) && SameOutside(t, f1, f2)
  {
    assert AllRep(t.kids, f1);
    SiblingsKept(t, ci, c, f1, f2);
    OutsideWhole(t, ci, f1, f2);
    OwnPageKept(t, ci, f1, f2);
    PgsSwap(t.kids, ci, c);
    assert AllRep(t.kids[ci := c], f2);
  }

  lemma WithRep(ks: seq<Tree>, p: nat, r: Tree, f: File)
    requires AllRep(ks, f) && p < |ks| && Rep(r, f)
    ensures AllRep(With(ks, p, r), f)
  {
    var w := With(ks, p, r);
    forall i | 0 <= i < |w| ensures Rep(w[i], f) {
      if i > p + 1 { assert w[i] == ks[i - 1]; }
    }
  }

  // After child ci split into l and r, none of the children uses page x.
  lemma WithUnused(t: Tree, ci: nat, l: Tree, p: nat, r: Tree, x: nat)
    requires t.Node? && ci < |t.kids| && p < |t.kids|
    requires Uses(l, x) == 0 && Uses(r, x) == 0
    requires forall i :: 0 <= i < |t.kids| ==> Uses(t.kids[i], x) == 0
    ensures var w := With(t.kids[ci := l], p, r); forall i :: 0 <= i < |w| ==> Uses(w[i], x) == 0
  {
    var ks := t.kids[ci := l];
    var w := With(ks, p, r);
    forall i | 0 <= i < |w| ensures Uses(w[i], x) == 0 {
      if i > p + 1 { assert w[i] == ks[i - 1]; }
    }
  }

  ghost predicate Below(t: Tree, np: nat) {
    forall x: nat :: Uses(t, x) > 0 ==> x < np
  }

  // After child ci split: the subtrees to link from page t.pg, and the pages they leave alone.
  lemma SplitKids(t: Tree, h: nat, root: bool, e: Entry, np: nat, ci: nat, g: Grown, f1: File, f2: File)
    requires Shape(t, h, root) && t.Node? && Once(t) && Below(t, np) && Rep(t, f1)
    requires ci == Slot(t.seps, e.key) && g == Ins(t.kids[ci], e, np) && g.Split?
    requires SameOutside(t.kids[ci], f1, f2) && GRep(g, f2)
    ensures var ks := With(t.kids[ci := g.l], Slot(t.seps, g.mk), g.r);
            && AllRep(ks, f2)
            && PgsOf(ks) == With(PgsOf(t.kids), Slot(t.seps, g.mk), g.r.Pg())
            && (forall i :: 0 <= i < |ks| ==> Uses(ks[i], t.pg) == 0)
            && (forall i :: 0 <= i < |ks| ==> Uses(ks[i], g.np) == 0)
    ensures SameOutside(t, f1, f2) && t.pg in f2 && f2[t.pg] == f1[t.pg]
  {
    assert AllRep(t.kids, f1);
    SiblingsKept(t, ci, g.l, f1, f2);
    OutsideWhole(t, ci, f1, f2);
    OwnPageKept(t, ci, f1, f2);
    var p := Slot(t.seps, g.mk);
    WithRep(t.kids[ci := g.l], p, g.r, f2);
    InsPg(t.kids[ci], e, np);
    PgsSwap(t.kids, ci, g.l);
    PgsWith(t.kids[ci := g.l], p, g.r);
    SplitUnused(t, h, root, e, np, ci, g);
  }

  // Neither the page above nor the next page is used by the subtrees.
  lemma SplitUnused(t: Tree, h: nat, root: bool, e: Entry, np: nat, ci: nat, g: Grown)
    requires Shape(t, h, root) && t.Node? && Once(t) && Below(t, np)
    requires ci == Slot(t.seps, e.key) && g == Ins(t.kids[ci], e, np) && g.Split?
    ensures var ks := With(t.kids[ci := g.l], Slot(t.seps, g.mk), g.r);
            && (forall i :: 0 <= i < |ks| ==> Uses(ks[i], t.pg) == 0)
            && (forall i :: 0 <= i < |ks| ==> Uses(ks[i], g.np) == 0)
  {
    KidUses(t.pg, t.seps, t.kids, ci, t.pg);
    InsUses(t.kids[ci], h - 1, false, e, np, g.np);
    SplitUnusedPage(t, h, root, e, np, ci, g, t.pg);
    assert Uses(t, g.np) == 0;
    SplitUnusedPage(t, h, root, e, np, ci, g, g.np);
  }

  lemma SplitUnusedPage(t: Tree, h: nat, root: bool, e: Entry, np: nat, ci: nat, g: Grown, x: nat)
    requires Shape(t, h, root) && t.Node? && Once(t) && (x == t.pg < np || (x == g.np && Uses(t, x) == 0))
    requires ci == Slot(t.seps, e.key) && g == Ins(t.kids[ci], e, np) && g.Split?
    ensures var ks := With(t.kids[ci := g.l], Slot(t.seps, g.mk), g.r);
            forall i :: 0 <= i < |ks| ==> Uses(ks[i], x) == 0
  {
    forall i | 0 <= i < |t.kids| ensures Uses(t.kids[i], x) == 0 { KidUses(t.pg, t.seps, t.kids, i, x); }
    InsUses(t.kids[ci], h - 1, false, e, np, x);
    WithUnused(t, ci, g.l, Slot(t.seps, g.mk), g.r, x);
  }

  // The page above had room.
  lemma PutRep(pg: nat, ss: seq<int>, ks: seq<Tree>, np: nat, f: File)
    requires |ks| == |ss| + 1 && |ss| <= INT_MAX && AllRep(ks, f)
    requires forall i :: 0 <= i < |ks| ==> Uses(ks[i], pg) == 0
    ensures GRep(Cut(pg, ss, ks, np), f[pg := IntRec(ss, PgsOf(ks))])
  {
    var f' := f[pg := IntRec(ss, PgsOf(ks))];
    WriteOther(ks, f, pg, IntRec(ss, PgsOf(ks)));
    assert AllRep(ks, f');
  }

  // The page above split too.
  lemma DivideRep(pg: nat, ss: seq<int>, ks: seq<Tree>, np: nat, f: File)
    requires |ks| == |ss| + 1 && |ss| == INT_MAX + 1 && AllRep(ks, f) && pg != np
    requires forall i :: 0 <= i < |ks| ==> Uses(ks[i], pg) == 0
    requires forall i :: 0 <= i < |ks| ==> Uses(ks[i], np) == 0
    ensures var cs := PgsOf(ks);
            GRep(Cut(pg, ss, ks, np), f[pg := IntRec(ss[..170], cs[..171])][np := IntRec(ss[171..], cs[171..])])
  {
    var cs := PgsOf(ks);
    var a, b := IntRec(ss[..170], cs[..171]), IntRec(ss[171..], cs[171..]);
    WriteOther(ks, f, pg, a);
    WriteOther(ks, f[pg := a], np, b);
    var f' := f[pg := a][np := b];
    assert AllRep(ks[..171], f') && AllRep(ks[171..], f');
    assert PgsOf(ks[..171]) == cs[..171] && PgsOf(ks[171..]) == cs[171..];
  }

  // What a call of the recursive insertion at page t.Pg() may count on.
  ghost predicate Ready(t: Tree, h: nat, top: bool, e: Entry, chain: seq<LeafPage>, f: File, np: nat) {
    && Shape(t, h, top) && Once(t) && Below(t, np) && Rep(t, f)
    && Linked(chain, f) && Distinct(chain) && Pages(f, np) && Target(t, e) in chain
  }

  ghost function NewChain(t: Tree, e: Entry, chain: seq<LeafPage>, np: nat): seq<LeafPage> {
    Splice(chain, IndexOf(chain, Target(t, e)), Repl(Target(t, e), e, np))
  }

  // What it leaves behind: exactly the insertion into t, the chain updated, all other pages as before.
  ghost predicate Done(t: Tree, e: Entry, chain: seq<LeafPage>, f1: File, np1: nat, f2: File, np2: nat) {
    var g := Ins(t, e, np1);
    && np2 == g.np && Pages(f2, np2) && GRep(g, f2) && SameOutside(t, f1, f2)
    && Linked(NewChain(t, e, chain, np1), f2)
  }

  lemma KidReady(t: Tree, h: nat, top: bool, e: Entry, chain: seq<LeafPage>, f: File, np: nat, ci: nat)
    requires Ready(t, h, top, e, chain, f, np) && t.Node? && ci == Slot(t.seps, e.key)
    ensures h > 0 && Ready(t.kids[ci], h - 1, false, e, chain, f, np)
    ensures f[t.pg] == IntRec(t.seps, PgsOf(t.kids)) && Target(t, e) == Target(t.kids[ci], e)
  {
    forall x: nat ensures Uses(t.kids[ci], x) <= Uses(t, x) { KidUses(t.pg, t.seps, t.kids, ci, x); }
  }

  lemma KeptDone(t: Tree, h: nat, top: bool, e: Entry, chain: seq<LeafPage>,
                 f1: File, np1: nat, f2: File, np2: nat, ci: nat)
    requires Ready(t, h, top, e, chain, f1, np1) && t.Node? && ci == Slot(t.seps, e.key)
    requires Done(t.kids[ci], e, chain, f1, np1, f2, np2) && Ins(t.kids[ci], e, np1).Kept?
    ensures Done(t, e, chain, f1, np1, f2, np2) && Ins(t, e, np1).Kept?
  {
    InsPg(t.kids[ci], e, np1);
    KeptRep(t, ci, Ins(t.kids[ci], e, np1).t, f1, f2);
  }

  lemma SplitIns(t: Tree, e: Entry, np: nat, ci: nat)
    requires t.Node? && |t.kids| == |t.seps| + 1 && ci == Slot(t.seps, e.key) && Ins(t.kids[ci], e, np).Split?
    ensures var g := Ins(t.kids[ci], e, np);
            Ins(t, e, np)
            == Cut(t.pg, SepsWith(t.seps, g.mk), With(t.kids[ci := g.l], Slot(t.seps, g.mk), g.r), g.np)
  {
  }

  lemma WriteOutside(t: Tree, f1: File, f2: File, page: Page)
    requires t.Node? && SameOutside(t, f1, f2)
    ensures SameOutside(t, f1, f2[t.pg := page])
  {
    UsesNode(t.pg, t.seps, t.kids, t.pg);
  }

  lemma WriteFresh(t: Tree, f1: File, f2: File, pg: nat, page: Page)
    requires SameOutside(t, f1, f2) && pg !in f1
    ensures SameOutside(t, f1, f2[pg := page])
  {
  }

  // The child split and this page has room.
  lemma PutDone(t: Tree, h: nat, top: bool, e: Entry, chain: seq<LeafPage>,
                f1: File, np1: nat, f2: File, np2: nat, ci: nat)
    requires Ready(t, h, top, e, chain, f1, np1) && t.Node? && ci == Slot(t.seps, e.key)
    requires Done(t.kids[ci], e, chain, f1, np1, f2, np2) && Ins(t.kids[ci], e, np1).Split? && |t.seps| < INT_MAX
    ensures var g := Ins(t.kids[ci], e, np1);
            var page := IntRec(SepsWith(t.seps, g.mk), With(PgsOf(t.kids), Slot(t.seps, g.mk), g.r.Pg()));
            t.pg in f2 && Done(t, e, chain, f1, np1, f2[t.pg := page], np2) && Ins(t, e, np1).Kept?
  {
    var g := Ins(t.kids[ci], e, np1);
    SplitKids(t, h, top, e, np1, ci, g, f1, f2);
    SplitIns(t, e, np1, ci);
    var ss, ks := SepsWith(t.seps, g.mk), With(t.kids[ci := g.l], Slot(t.seps, g.mk), g.r);
    PutRep(t.pg, ss, ks, np2, f2);
    WriteLinked(NewChain(t, e, chain, np1), f2, t.pg, IntRec(ss, PgsOf(ks)));
    WriteOutside(t, f1, f2, IntRec(ss, PgsOf(ks)));
  }

  ghost function Halves(f: File, pg: nat, np: nat, ss: seq<int>, cs: seq<nat>): File
    requires |ss| == INT_MAX + 1 && |cs| == |ss| + 1
  {
    f[pg := IntRec(ss[..170], cs[..171])][np := IntRec(ss[171..], cs[171..])]
  }

  // The child split and this page splits in turn.
  lemma DivideDone(t: Tree, h: nat, top: bool, e: Entry, chain: seq<LeafPage>,
                   f1: File, np1: nat, f2: File, np2: nat, ci: nat)
    requires Ready(t, h, top, e, chain, f1, np1) && t.Node? && ci == Slot(t.seps, e.key)
    requires Done(t.kids[ci], e, chain, f1, np1, f2, np2) && Ins(t.kids[ci], e, np1).Split? && |t.seps| == INT_MAX
    ensures var g := Ins(t.kids[ci], e, np1);
            var ss, cs := SepsWith(t.seps, g.mk), With(PgsOf(t.kids), Slot(t.seps, g.mk), g.r.Pg());
            var up := Ins(t, e, np1);
            && Done(t, e, chain, f1, np1, Halves(f2, t.pg, np2, ss, cs), np2 + 1)
            && t.pg in f2 && up.Split? && up.mk == ss[170] && up.r.Pg() == np2
  {
    hide IntIns, Uses, With, SepsWith, SameOutside, GRep, PgsOf;
    var g := Ins(t.kids[ci], e, np1);
    var ss, ks := SepsWith(t.seps, g.mk), With(t.kids[ci := g.l], Slot(t.seps, g.mk), g.r);
    SplitKids(t, h, top, e, np1, ci, g, f1, f2);
    SplitIns(t, e, np1, ci);
    SplitGrows(t.kids[ci], h - 1, e, np1, np2, f1);
    DivideSteps(t, NewChain(t, e, chain, np1), f1, f2, np2, ss, ks);
  }

  lemma SplitGrows(c: Tree, h: nat, e: Entry, np1: nat, np2: nat, f1: File)
    requires Shape(c, h, false) && np2 == Ins(c, e, np1).np && Pages(f1, np1)
    ensures np2 !in f1
  {
    InsUses(c, h, false, e, np1, 0);
  }

  lemma DivideSteps(t: Tree, chain': seq<LeafPage>, f1: File, f2: File, np2: nat,
                    ss: seq<int>, ks: seq<Tree>)
    requires t.Node? && |ss| == INT_MAX + 1 && |ks| == |ss| + 1 && AllRep(ks, f2)
    requires forall i :: 0 <= i < |ks| ==> Uses(ks[i], t.pg) == 0
    requires forall i :: 0 <= i < |ks| ==> Uses(ks[i], np2) == 0
    requires SameOutside(t, f1, f2) && np2 !in f1 && Pages(f2, np2) && Linked(chain', f2)
    requires t.pg in f2 && f2[t.pg].IntRec?
    ensures var f := Halves(f2, t.pg, np2, ss, PgsOf(ks));
            && GRep(Cut(t.pg, ss, ks, np2), f) && SameOutside(t, f1, f) && Linked(chain', f) && Pages(f, np2 + 1)
  {
    var cs := PgsOf(ks);
    var a, b := IntRec(ss[..170], cs[..171]), IntRec(ss[171..], cs[171..]);
    DivideRep(t.pg, ss, ks, np2, f2);
    WriteLinked(chain', f2, t.pg, a);
    WriteLinked(chain', f2[t.pg := a], np2, b);
    WriteOutside(t, f1, f2, a);
    WriteFresh(t, f1, f2[t.pg := a], np2, b);
  }

  lemma InsertCount(x: Index, e: Entry)
    ensures Insert(x, e).nkeys == x.nkeys + 1
  {
  }

  // All pages of index y are written except for the counters in the header page.
  ghost predicate StoredButHeader(y: Index, f: File) {
    Stored(y, f[0 := Header(MAGIC, VERSION, y.root.Pg(), y.nkeys, y.np)])
  }

  lemma ChainDistinct(x: Index, f: File)
    requires Stored(x, f)
    ensures Distinct(x.chain)
  {
    forall i, j | 0 <= i < j < |x.chain| ensures x.chain[i].pg != x.chain[j].pg {
      assert LinkAt(x.chain, f, i) && LinkAt(x.chain, f, j);
      if x.chain[i] == x.chain[j] {
        TwiceOccurs(x.chain, i, j);
        LeafUses(x.root, x.chain[i]);
        assert false;
      }
    }
  }

  lemma StoredReady(x: Index, f: File, e: Entry)
    requires Stored(x, f)
    ensures Ready(x.root, x.h, true, e, x.chain, f, x.np)
  {
    ChainDistinct(x, f);
    TargetInChain(x, e);
  }

  lemma RepWrite(t: Tree, f: File, pg: nat, page: Page)
    requires Rep(t, f) && Uses(t, pg) == 0
    ensures Rep(t, f[pg := page])
  {
    RepFrame(t, f, f[pg := page]);
  }

  lemma StoreKept(x: Index, e: Entry, f1: File, f2: File, np2: nat)
    requires Stored(x, f1) && Done(x.root, e, x.chain, f1, x.np, f2, np2) && Ins(x.root, e, x.np).Kept?
    ensures var y := Insert(x, e);
            y.root.Pg() == x.root.Pg() && y.np == np2 && StoredButHeader(y, f2)
  {
    var y := Insert(x, e);
    InsertSound(x, e);
    InsPg(x.root, e, x.np);
    StoreHeader(y, f2);
  }

  lemma NewRootRep(g: Grown, rootPg: nat, f: File, np: nat)
    requires g.Split? && GRep(g, f) && Uses(g.l, np) == 0 && Uses(g.r, np) == 0 && g.l.Pg() == rootPg
    ensures Rep(Node(np, [g.mk], [g.l, g.r]), f[np := IntRec([g.mk], [rootPg, g.r.Pg()])])
  {
    var page := IntRec([g.mk], [rootPg, g.r.Pg()]);
    RepWrite(g.l, f, np, page);
    RepWrite(g.r, f, np, page);
    assert PgsOf([g.l, g.r]) == [rootPg, g.r.Pg()];
  }

  // The next page is used by neither half.
  lemma SplitFree(x: Index, e: Entry, np2: nat)
    requires Sound(x) && Ins(x.root, e, x.np).Split? && np2 == Ins(x.root, e, x.np).np
    ensures var g := Ins(x.root, e, x.np); Uses(g.l, np2) == 0 && Uses(g.r, np2) == 0
  {
    InsUses(x.root, x.h, true, e, x.np, np2);
  }

  lemma StoreSplit(x: Index, e: Entry, f1: File, f2: File, np2: nat)
    requires Stored(x, f1) && Done(x.root, e, x.chain, f1, x.np, f2, np2) && Ins(x.root, e, x.np).Split?
    ensures var y := Insert(x, e);
            var g := Ins(x.root, e, x.np);
            && y.root.Pg() == np2 && y.np == np2 + 1
            && StoredButHeader(y, f2[np2 := IntRec([g.mk], [x.root.Pg(), g.r.Pg()])])
  {
    var y := Insert(x, e);
    var g := Ins(x.root, e, x.np);
    InsertSound(x, e);
    InsPg(x.root, e, x.np);
    SplitFree(x, e, np2);
    StoreRoot(y, g, x.root.Pg(), f2, np2);
  }

  lemma StoreRoot(y: Index, g: Grown, rootPg: nat, f: File, np: nat)
    requires g.Split? && GRep(g, f) && Uses(g.l, np) == 0 && Uses(g.r, np) == 0 && g.l.Pg() == rootPg
    requires Sound(y) && y.root == Node(np, [g.mk], [g.l, g.r]) && y.np == np + 1
    requires Linked(y.chain, f) && np !in f && Pages(f, np) && (0 in f ==> f[0].Header?)
    ensures StoredButHeader(y, f[np := IntRec([g.mk], [rootPg, g.r.Pg()])])
  {
    var page := IntRec([g.mk], [rootPg, g.r.Pg()]);
    NewRootRep(g, rootPg, f, np);
    WriteLinked(y.chain, f, np, page);
    StoreHeader(y, f[np := page]);
  }

  lemma StoreHeader(y: Index, f: File)
    requires Sound(y) && Rep(y.root, f) && Linked(y.chain, f) && Pages(f, y.np) && (0 in f ==> f[0].Header?)
    ensures StoredButHeader(y, f)
  {
    var hdr := Header(MAGIC, VERSION, y.root.Pg(), y.nkeys, y.np);
    RepWrite(y.root, f, 0, hdr);
    WriteLinked(y.chain, f, 0, hdr);
  }

  lemma EmptyStored()
    ensures Stored(Empty, map[0 := Header(MAGIC, VERSION, 1, 0, 2), 1 := LeafRec([], -1)])
  {
    EmptyValid();
    var f: File := map[0 := Header(MAGIC, VERSION, 1, 0, 2), 1 := LeafRec([], -1)];
    forall i: nat ensures LinkAt(Empty.chain, f, i) {}
  }

  // What is still to come from place i of the chain on.
  ghost function Rest(chain: seq<LeafPage>, i: nat, lo: int, hi: int): seq<int> {
    if i < |chain| then Scan(Flat(chain[i..]), lo, hi) else []
  }

  lemma RestEnd(chain: seq<LeafPage>, lo: int, hi: int)
    ensures Rest(chain, |chain|, lo, hi) == []
  {
  }

  lemma RestNext(chain: seq<LeafPage>, i: nat, lo: int, hi: int)
    requires i < |chain|
    ensures Rest(chain, i, lo, hi) == Scan(chain[i].ents + Flat(chain[i + 1..]), lo, hi)
    ensures Rest(chain, i + 1, lo, hi) == Scan(Flat(chain[i + 1..]), lo, hi)
  {
    assert chain[i..] == [chain[i]] + chain[i + 1..];
    FlatApp([chain[i]], chain[i + 1..]);
    FlatOne(chain[i]);
    if i + 1 == |chain| { assert chain[i + 1..] == []; }
  }

  lemma FoundInChain(x: Index, lo: int)
    requires Sound(x)
    ensures FindLeaf(x.root, lo) in x.chain
  {
    FindAt(x.root, x.h, true, lo);
    OccursIn(Leaves(x.root), FindLeaf(x.root, lo));
    OccursIn(x.chain, FindLeaf(x.root, lo));
  }
}
