// The index over its page file: insertion, range query, lookup, creation and reopening.

module BTreeFile {
  import opened BTreeModel
  import opened BTreeOrder
  import opened BTreeIndex
  import opened BTreeRuns
  import opened BTreePages
  import opened BTreeStored

  class BTree {
    var file: File
    var root: nat
    var npages: nat
    var nkeys: nat
    ghost var model: Index         // the index the file stores
    ghost var log: seq<Entry>      // the pairs inserted so far, in order

    ghost predicate Holds()
      reads `file, `root, `npages, `nkeys, `model
    {
      Stored(model, file) && root == model.root.Pg() && npages == model.np && nkeys == model.nkeys
    }

    ghost predicate Valid()
      reads this
    {
      Holds() && model == After(log)
    }

    method AllocPg() returns (no: nat)
      modifies this`npages, this`file
      ensures no == old(npages) && npages == no + 1 && file == old(file)[no := Blank]
    {
      no := npages;
      npages := npages + 1;
      file := file[no := Blank];
    }

    method FlushHdr()
      modifies this`file
      ensures file == old(file)[0 := Header(0x44464F42545245FF, 1, root, nkeys, npages)]
    {
      file := file[0 := Header(MAGIC, VERSION, root, nkeys, npages)];
    }

    // Insertion into the leaf page pgno; a full page leaves its upper half to a fresh one.
    method LeafWrite(pgno: nat, key: int, off: int) returns (split: bool, mk: int, rnew: nat)
      requires pgno in file && file[pgno].LeafRec? && |file[pgno].ents| <= LEAF_MAX && npages !in file
      modifies this`npages, this`file
      ensures var page := old(file)[pgno];
              var s := Place(page.ents, Entry(key, off));
              && (split <==> |page.ents| == LEAF_MAX)
              && (!split ==> npages == old(npages) && file == old(file)[pgno := LeafRec(s, page.next)])
              && (split ==> npages == old(npages) + 1 && rnew == old(npages) && mk == s[128].key)
              && (split ==>
                  file == old(file)[pgno := LeafRec(s[..128], rnew)][rnew := LeafRec(s[128..], page.next)])
    {
      var buf := new LeafBuf(file[pgno].ents, file[pgno].next);
      var pos := buf.Find(key);
      split, mk, rnew := false, 0, 0;
      if buf.n < LEAF_MAX {
        buf.Put(pos, Entry(key, off));
        file := file[pgno := LeafRec(buf.ents[..buf.n], buf.next)];
      } else {
        ghost var f := file;
        rnew := AllocPg();
        var right: LeafBuf;
        right, mk := buf.Divide(pos, Entry(key, off), rnew);
        file := file[pgno := LeafRec(buf.ents[..buf.n], buf.next)];
        file := file[rnew := LeafRec(right.ents[..right.n], right.next)];
        ghost var f1: File := f[pgno := file[pgno]];
        assert file == f1[rnew := file[rnew]];
        split := true;
      }
    }

    // Where that page p is at place IndexOf(chain, p) of the leaf chain.
    method LeafInsert(pgno: nat, key: int, off: int, ghost p: LeafPage, ghost chain: seq<LeafPage>)
        returns (split: bool, mk: int, rnew: nat)
      requires p.pg == pgno && |p.ents| <= LEAF_MAX && p in chain
      requires Linked(chain, file) && Distinct(chain) && Pages(file, npages)
      modifies this`npages, this`file
      ensures var e := Entry(key, off);
              var g := LeafIns(p, e, old(npages));
              && npages == g.np && Pages(file, npages) && GRep(g, file)
              && Linked(Splice(chain, IndexOf(chain, p), Repl(p, e, old(npages))), file)
              && (split <==> g.Split?) && (split ==> mk == g.mk && rnew == g.r.Pg())
      ensures forall pg: nat :: pg in old(file) && pg != pgno ==> pg in file && file[pg] == old(file)[pg]
    {
      ghost var e, i := Entry(key, off), IndexOf(chain, p);
      ghost var s, f := Place(p.ents, e), file;
      assert LinkAt(chain, file, i);
      if |p.ents| < LEAF_MAX {
        LinkOne(chain, f, i, s);
        assert Repl(p, e, npages) == [LeafPage(pgno, s)];
      } else {
        LinkTwo(chain, f, i, s[..128], npages, s[128..]);
        assert Repl(p, e, npages) == [LeafPage(pgno, s[..128]), LeafPage(npages, s[128..])];
      }
      hide Linked, Splice, Place;
      split, mk, rnew := LeafWrite(pgno, key, off);
    }

    // Insertion of a key and the child right of it into the internal page pgno.
    method IntInsert(pgno: nat, key: int, rc: nat) returns (split: bool, mk: int, rnew: nat)
      requires pgno in file && file[pgno].IntRec? && npages !in file
      requires |file[pgno].keys| <= INT_MAX && |file[pgno].chs| == |file[pgno].keys| + 1
      modifies this`npages, this`file
      ensures var page := old(file)[pgno];
              var ss, cs := SepsWith(page.keys, key), With(page.chs, Slot(page.keys, key), rc);
              && (split <==> |page.keys| == INT_MAX)
              && (!split ==> npages == old(npages) && file == old(file)[pgno := IntRec(ss, cs)])
              && (split ==> npages == old(npages) + 1 && rnew == old(npages) && mk == ss[170])
              && (split ==> file == Halves(old(file), pgno, rnew, ss, cs))
    {
      var buf := new IntBuf(file[pgno].keys, file[pgno].chs);
      var pos := buf.Find(key);
      split, mk, rnew := false, 0, 0;
      if buf.n < INT_MAX {
        buf.Put(pos, key, rc);
        file := file[pgno := IntRec(buf.keys[..buf.n], buf.chs[..buf.n + 1])];
      } else {
        var right: IntBuf;
        right, mk := buf.Divide(pos, key, rc);
        file := file[pgno := IntRec(buf.keys[..buf.n], buf.chs[..buf.n + 1])];
        ghost var f := file;
        rnew := AllocPg();
        file := file[rnew := IntRec(right.keys[..right.n], right.chs[..right.n + 1])];
        assert file == f[rnew := file[rnew]];
        split := true;
      }
    }

    // The recursive descent below page pgno, which holds t.
    method DoInsert(pgno: nat, key: int, off: int, ghost t: Tree, ghost h: nat, ghost top: bool,
                    ghost chain: seq<LeafPage>) returns (split: bool, mk: int, rnew: nat)
      requires pgno == t.Pg() && Ready(t, h, top, Entry(key, off), chain, file, npages)
      modifies this`npages, this`file
      ensures Done(t, Entry(key, off), chain, old(file), old(npages), file, npages)
      ensures var g := Ins(t, Entry(key, off), old(npages));
              (split <==> g.Split?) && (split ==> mk == g.mk && rnew == g.r.Pg())
      decreases h
    {
      hide LeafIns, Repl, Below, GRep, Place, Linked;
      ghost var e, f1, np1 := Entry(key, off), file, npages;
      if file[pgno].LeafRec? {
        split, mk, rnew := LeafInsert(pgno, key, off, t.page, chain);
        return;
      }
      var buf := new IntBuf(file[pgno].keys, file[pgno].chs);
      var ci := buf.Find(key);
      var child := buf.chs[ci];
      KidReady(t, h, top, e, chain, file, npages, ci);
      var cmk, crnew;
      split, cmk, crnew := DoInsert(child, key, off, t.kids[ci], h - 1, false, chain);
      mk, rnew := 0, 0;
      if !split {
        KeptDone(t, h, top, e, chain, f1, np1, file, npages, ci);
        return;
      }
      OwnPageKept(t, ci, f1, file);
      if |file[pgno].keys| < INT_MAX {
        PutDone(t, h, top, e, chain, f1, np1, file, npages, ci);
      } else {
        DivideDone(t, h, top, e, chain, f1, np1, file, npages, ci);
      }
      split, mk, rnew := IntInsert(pgno, cmk, crnew);
    }

    // A new file: the header page and an empty root leaf.
    constructor ()
      ensures Valid() && log == []
    {
      var f: File := map[0 := Blank];
      f := f[1 := LeafRec([], -1)];
      file := f[0 := Header(MAGIC, VERSION, 1, 0, 2)];
      root, npages, nkeys := 1, 2, 0;
      model, log := Empty, [];
      new;
      EmptyStored();
      assert file == map[0 := Header(MAGIC, VERSION, 1, 0, 2), 1 := LeafRec([], -1)];
    }

    // A new root above the two halves of the old one.
    method NewRoot(mk: int, rnew: nat)
      modifies `npages, `file, `root
      ensures root == old(npages) && npages == old(npages) + 1
      ensures file == old(file)[root := IntRec([mk], [old(root), rnew])]
    {
      ghost var f := file;
      var newRoot := AllocPg();
      file := file[newRoot := IntRec([mk], [root, rnew])];
      assert file == f[newRoot := IntRec([mk], [root, rnew])];
      root := newRoot;
    }

    // The page writes of one insertion, up to the header.
    method InsertPages(key: int, off: int, ghost x: Index)
      requires Stored(x, file) && root == x.root.Pg() && npages == x.np
      modifies `file, `root, `npages
      ensures var y := BTreeIndex.Insert(x, Entry(key, off));
              StoredButHeader(y, file) && root == y.root.Pg() && npages == y.np
    {
      ghost var e, f1 := Entry(key, off), file;
      StoredReady(x, f1, e);
      var split, mk, rnew := DoInsert(root, key, off, x.root, x.h, true, x.chain);
      if split {
        StoreSplit(x, e, f1, file, npages);
        NewRoot(mk, rnew);
      } else {
        StoreKept(x, e, f1, file, npages);
      }
    }

    method Store(key: int, off: int)
      requires Holds()
      modifies `file, `root, `npages, `nkeys, `model
      ensures Holds() && model == BTreeIndex.Insert(old(model), Entry(key, off))
    {
      InsertPages(key, off, model);
      nkeys := nkeys + 1;
      InsertCount(model, Entry(key, off));
      FlushHdr();
      model := BTreeIndex.Insert(model, Entry(key, off));
    }

    // Every insertion, with any key, keeps the file sound and stores exactly the index that
    // the run of insertions so far describes.
    method Insert(key: int, off: int)
      requires Valid()
      modifies this
      ensures Valid() && log == old(log) + [Entry(key, off)]
    {
      AfterApp(log, Entry(key, off));
      Store(key, off);
      log := log + [Entry(key, off)];
    }

    // The leftmost leaf that can hold a key >= target.
    method FindLeafGe(target: int) returns (cur: nat)
      requires Holds()
      ensures cur == FindLeaf(model.root, target).pg
    {
      cur := root;
      ghost var t, h, top := model.root, model.h, true;
      while file[cur].IntRec?
        invariant cur == t.Pg() && Rep(t, file) && Shape(t, h, top)
        invariant FindLeaf(t, target) == FindLeaf(model.root, target)
        decreases h
      {
        var buf := new IntBuf(file[cur].keys, file[cur].chs);
        var ci := buf.FindLow(target);
        cur := buf.chs[ci];
        t, h, top := t.kids[ci], h - 1, false;
      }
    }

    // Collecting from one leaf page; tail are the entries of the leaves after it.
    method ScanPage(ents: seq<Entry>, got: seq<int>, lo: int, hi: int, ghost tail: seq<Entry>)
        returns (offs: seq<int>, stop: bool)
      requires |got| <= MAX_OFFSETS
      ensures |offs| <= MAX_OFFSETS
      ensures stop ==> got + Scan(ents + tail, lo, hi) == offs
      ensures !stop && |offs| < MAX_OFFSETS ==> got + Scan(ents + tail, lo, hi) == offs + Scan(tail, lo, hi)
      ensures offs <= got + Scan(ents + tail, lo, hi)
    {
      offs, stop := got, false;
      ghost var all := got + Scan(ents + tail, lo, hi);
      var k := 0;
      assert ents[0..] == ents;
      while k < |ents| && |offs| < MAX_OFFSETS
        invariant k <= |ents| && |offs| <= MAX_OFFSETS
        invariant all == offs + Scan(ents[k..] + tail, lo, hi)
      {
        assert ents[k..] + tail == [ents[k]] + (ents[k + 1..] + tail);
        if ents[k].key > hi {
          stop := true;
          return;
        }
        if ents[k].key >= lo {
          offs := offs + [ents[k].off];
        }
        k := k + 1;
      }
      if |offs| < MAX_OFFSETS {
        assert ents[k..] + tail == tail;
      }
    }

    // One page of the walk over the leaf chain, at place i of the chain.
    method FollowPage(lpg: nat, got: seq<int>, lo: int, hi: int, ghost chain: seq<LeafPage>, ghost i: nat)
        returns (offs: seq<int>, next: int, stop: bool)
      requires Linked(chain, file) && Pages(file, npages) && i < |chain| && lpg == chain[i].pg && |got| <= MAX_OFFSETS
      ensures |offs| <= MAX_OFFSETS && offs <= got + Rest(chain, i, lo, hi)
      ensures stop ==> offs == got + Rest(chain, i, lo, hi)
      ensures !stop && |offs| < MAX_OFFSETS ==>
                got + Rest(chain, i, lo, hi) == offs + Rest(chain, i + 1, lo, hi)
      ensures next == PageAt(chain, i + 1) < npages
    {
      OnChain(chain, file, npages, i);
      RestNext(chain, i, lo, hi);
      offs, stop := ScanPage(file[lpg].ents, got, lo, hi, Flat(chain[i + 1..]));
      next := file[lpg].next;
    }

    // The walk over the leaf chain from page start, which is at place i0 of the chain.
    method Follow(start: nat, lo: int, hi: int, ghost chain: seq<LeafPage>, ghost i0: nat) returns (offs: seq<int>)
      requires Linked(chain, file) && Pages(file, npages) && i0 < |chain| && start == chain[i0].pg
      ensures offs == Cap(Rest(chain, i0, lo, hi))
    {
      hide Rest, Linked, Pages;
      offs := [];
      var lpg: int := start;
      ghost var i, all := i0, Rest(chain, i0, lo, hi);
      RestEnd(chain, lo, hi);
      OnChain(chain, file, npages, i);
      while lpg >= 0 && lpg < npages && |offs| < MAX_OFFSETS
        invariant i <= |chain| && |offs| <= MAX_OFFSETS && offs <= all
        invariant lpg == PageAt(chain, i) < npages
        invariant |offs| < MAX_OFFSETS ==> all == offs + Rest(chain, i, lo, hi)
        decreases |chain| - i
      {
        var stop;
        offs, lpg, stop := FollowPage(lpg, offs, lo, hi, chain, i);
        if stop {
          return;
        }
        i := i + 1;
      }
    }

    method Walk(lo: int, hi: int) returns (offs: seq<int>)
      requires Holds()
      ensures offs == Query(model, lo, hi)
    {
      if nkeys == 0 {
        offs := [];
      } else {
        var lpg := FindLeafGe(lo);
        FoundInChain(model, lo);
        offs := Follow(lpg, lo, hi, model.chain, IndexOf(model.chain, FindLeaf(model.root, lo)));
      }
    }

    // The offsets of the pairs inserted with lo <= key <= hi, in key order, equal keys in insertion
    // order, cut to the capacity of the result buffer, after every safe run.
    method Range(lo: int, hi: int) returns (offs: seq<int>)
      requires Valid()
      ensures offs == Query(model, lo, hi)
      ensures SafeRun(log) ==> offs == Cap(InRange(StableSort(log), lo, hi))
    {
      offs := Walk(lo, hi);
      if SafeRun(log) { SafeRunQuery(log, lo, hi); }
    }

    // The offsets inserted under one key, in insertion order, after every safe run.
    method Lookup(key: int) returns (offs: seq<int>)
      requires Valid()
      ensures offs == Query(model, key, key)
      ensures SafeRun(log) ==> offs == Cap(InRange(log, key, key))
    {
      offs := Range(key, key);
      if SafeRun(log) { SafeRunLookup(log, key); }
    }

    method Count() returns (n: nat)
      requires Valid()
      ensures n == |log|
    {
      RunSound(log);
      n := nkeys;
    }

    // Reopening: the counters come from the header page.
    constructor Reopen(f: File, ghost x: Index, ghost run: seq<Entry>)
      requires 0 in f && f[0].Header? && f[0].magic == MAGIC
      ensures file == f && model == x && log == run
      ensures Stored(x, f) ==> Holds()
      ensures Stored(x, f) && x == After(run) ==> Valid()
    {
      file := f;
      root, npages, nkeys := f[0].root, f[0].npages, f[0].nkeys;
      model, log := x, run;
    }
  }

  // Opening fails on a missing or foreign header and otherwise finds the index the file stores.
  method Open(f: File, ghost x: Index, ghost run: seq<Entry>) returns (t: BTree?)
    ensures t == null <==> !(0 in f && f[0].Header? && f[0].magic == 0x44464F42545245FF)
    ensures t != null && Stored(x, f) && x == After(run) ==> t.Valid() && t.log == run && t.file == f
  {
    if 0 in f && f[0].Header? && f[0].magic == MAGIC {
      t := new BTree.Reopen(f, x, run);
    } else {
      t := null;
    }
  }
}
