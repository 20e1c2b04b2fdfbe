// The arena: bump allocation over a chain of blocks, with marks to roll back to.

module Arena {

  const ALIGN: nat := 16
  const DEFAULT_BLOCK: nat := 65536

  // Rounding up to a multiple of sixteen.
  function AlignUp(n: nat): (r: nat)
    ensures r % ALIGN == 0 && n <= r < n + ALIGN
  {
    (n + ALIGN - 1) / ALIGN * ALIGN
  }

  // The program rounds with a mask, which on words is this formula.
  lemma MaskOnWords(n: bv64)
    ensures (n + 15) & !15 == (n + 15) / 16 * 16
  {
  }

  const WORD: nat := 0x1_0000_0000_0000_0000

  // Bitwise and.
  function And(a: nat, b: nat): nat {
    if a == 0 || b == 0 then 0 else 2 * And(a / 2, b / 2) + (if a % 2 == 1 && b % 2 == 1 then 1 else 0)
  }

  predicate AllOnes(m: nat) {
    m == 0 || (m % 2 == 1 && AllOnes(m / 2))
  }

  lemma {:induction false} AndOnes(a: nat, m: nat)
    requires a <= m && AllOnes(m)
    ensures And(a, m) == a
  {
    if a > 0 { AndOnes(a / 2, m / 2); }
  }

  lemma OneMore(m: nat)
    requires AllOnes(m)
    ensures AllOnes(2 * m + 1)
  {
    assert (2 * m + 1) / 2 == m;
  }

  lemma NibbleMore(m: nat)
    requires AllOnes(m)
    ensures AllOnes(16 * m + 15)
  {
    OneMore(m);
    OneMore(2 * m + 1);
    OneMore(4 * m + 3);
    OneMore(8 * m + 7);
  }

  lemma NibblesMore(m: nat)
    requires AllOnes(m)
    ensures AllOnes(0x10_0000 * m + 0xF_FFFF)
  {
    NibbleMore(m);
    NibbleMore(16 * m + 15);
    NibbleMore(0x100 * m + 0xFF);
    NibbleMore(0x1000 * m + 0xFFF);
    NibbleMore(0x1_0000 * m + 0xFFFF);
  }

  // Where the other number is even, so is the result.
  lemma AndEven(a: nat, b: nat)
    ensures And(a, 2 * b) == 2 * And(a / 2, b)
  {
    assert 2 * b / 2 == b && 2 * b % 2 == 0;
    if a / 2 == 0 || b == 0 { assert And(a / 2, b) == 0; }
  }

  lemma ClearFour(a: nat, b: nat)
    ensures And(a, 16 * b) == 16 * And(a / 16, b)
  {
    AndEven(a, 8 * b);
    AndEven(a / 2, 4 * b);
    AndEven(a / 2 / 2, 2 * b);
    AndEven(a / 2 / 2 / 2, b);
    assert a / 2 / 2 / 2 / 2 == a / 16;
  }

  // The mask of the program rounds up as AlignUp does, as long as the sum fits a word.
  lemma MaskRounds(n: nat)
    requires n + (ALIGN - 1) < WORD
    ensures And(n + (ALIGN - 1), WORD - 1 - (ALIGN - 1)) == AlignUp(n)
  {
    var a := n + (ALIGN - 1);
    NibblesMore(0);
    NibblesMore(0xF_FFFF);
    NibblesMore(0xFF_FFFF_FFFF);
    ClearFour(a, 0x0FFF_FFFF_FFFF_FFFF);
    AndOnes(a / 16, 0x0FFF_FFFF_FFFF_FFFF);
  }

  // A block: the address of its data, its room and how much of that is taken.
  datatype Block = Block(base: nat, cap: nat, used: nat)

  // What an allocation returned: an address and the room behind it, in the block of a given place.
  datatype Region = Region(addr: nat, size: nat, block: nat)

  predicate Apart(a: Region, b: Region) {
    a.addr + a.size <= b.addr || b.addr + b.size <= a.addr
  }

  predicate BlocksApart(a: Block, b: Block) {
    a.base + a.cap <= b.base || b.base + b.cap <= a.base
  }

  // A mark: how many blocks there were, and what was taken of the last; and what was live then.
  datatype Mark = Mark(depth: nat, used: nat, live: seq<Region>)

  // A region lies within what its block has given out.
  predicate Inside(r: Region, blocks: seq<Block>) {
    && r.block < |blocks| && r.addr % ALIGN == 0 && r.size >= 1
    && blocks[r.block].base <= r.addr
    && r.addr + r.size <= blocks[r.block].base + blocks[r.block].used
  }

  ghost predicate Sound(blocks: seq<Block>, live: seq<Region>) {
    && (forall i {:trigger blocks[i]} :: 0 <= i < |blocks| ==> blocks[i].used <= blocks[i].cap)
    && (forall i, j :: 0 <= i < j < |blocks| ==> BlocksApart(blocks[i], blocks[j]))
    && (forall k {:trigger live[k]} :: 0 <= k < |live| ==> Inside(live[k], blocks))
    && (forall k, l :: 0 <= k < l < |live| ==> Apart(live[k], live[l]))
  }

  // A mark is good while the blocks it counted are there, the last with no less taken, and what was live
  // lay within them.
  ghost predicate GoodMark(m: Mark, blocks: seq<Block>, live: seq<Region>) {
    && m.live <= live
    && (if m.depth == 0 then m.live == [] && m.used == 0
        else m.depth <= |blocks| && m.used <= blocks[m.depth - 1].used)
    && forall k {:trigger m.live[k]} :: 0 <= k < |m.live| ==>
         && m.live[k].block < m.depth <= |blocks|
         && (m.live[k].block == m.depth - 1 ==> m.live[k].addr + m.live[k].size <= blocks[m.depth - 1].base + m.used)
  }

  // What is cut for a request.
  function SizeFor(size: nat): (sz: nat)
    ensures sz >= 1 && sz >= size
  {
    AlignUp(if size == 0 then 1 else size)
  }

  // The room of a new block: twice a large request, and some for alignment.
  function CapFor(sz: nat): (cap: nat)
    ensures sz + ALIGN <= cap
  {
    (if sz > DEFAULT_BLOCK then sz * 2 else DEFAULT_BLOCK) + ALIGN
  }

  // Where an aligned piece of the block would begin.
  function Offset(b: Block): (off: nat)
    ensures b.used <= off && (b.base + off) % ALIGN == 0 && off < b.used + ALIGN
  {
    AlignUp(b.base + b.used) - b.base
  }

  // The block in use has room for the request.
  predicate Fits(blocks: seq<Block>, size: nat) {
    blocks != [] && Offset(blocks[|blocks| - 1]) + SizeFor(size) <= blocks[|blocks| - 1].cap
  }

  ghost predicate BlocksClear(blocks: seq<Block>, base: nat, cap: nat) {
    forall i {:trigger blocks[i]} :: 0 <= i < |blocks| ==> BlocksApart(blocks[i], Block(base, cap, 0))
  }

  // If the request needs a new block, malloc puts it at base, clear of the others.
  ghost predicate Placed(blocks: seq<Block>, size: nat, base: nat) {
    Fits(blocks, size) || BlocksClear(blocks, base, CapFor(SizeFor(size)))
  }

  function CutLast(blocks: seq<Block>, live: seq<Region>, sz: nat): (seq<Block>, seq<Region>)
    requires blocks != []
  {
    var n := |blocks| - 1;
    var off := Offset(blocks[n]);
    (blocks[n := blocks[n].(used := off + sz)], live + [Region(blocks[n].base + off, sz, n)])
  }

  function CutNew(blocks: seq<Block>, live: seq<Region>, sz: nat, base: nat): (seq<Block>, seq<Region>) {
    var b := Block(base, CapFor(sz), 0);
    var off := Offset(b);
    (blocks + [b.(used := off + sz)], live + [Region(base + off, sz, |blocks|)])
  }

  // The arena after an allocation.
  function Bumped(blocks: seq<Block>, live: seq<Region>, size: nat, base: nat): (seq<Block>, seq<Region>) {
    if Fits(blocks, size) then CutLast(blocks, live, SizeFor(size)) else CutNew(blocks, live, SizeFor(size), base)
  }

  class Arena {
    var blocks: seq<Block>           // the first block first; the last is the one in use
    var totalAllocated: nat
    var totalWasted: nat
    ghost var live: seq<Region>      // what has been given out, oldest first

    ghost predicate Valid()
      reads this
    {
      Sound(blocks, live)
    }

    // base is where the first block is put.
    constructor (size: nat, base: nat)
      ensures Valid() && live == [] && |blocks| == 1
    {
      blocks := [Block(base, if size == 0 then DEFAULT_BLOCK else size, 0)];
      totalAllocated, totalWasted, live := 0, 0, [];
    }

    // base is where a new block is put, if one is needed. The region is aligned, lies behind what its block
    // had given out, and is clear of every region still live.
    method Alloc(size: nat, base: nat) returns (r: Region)
      requires Valid() && Placed(blocks, size, base)
      modifies this
      ensures (blocks, live) == Bumped(old(blocks), old(live), size, base)
      ensures live == old(live) + [r] && Grown(old(blocks), old(live), blocks, live, size)
    {
      BumpedSound(blocks, live, size, base);
      var sz := SizeFor(size);
      if blocks != [] {
        var n := |blocks| - 1;
        var b := blocks[n];
        var off := Offset(b);
        if off + sz <= b.cap {
          r := Region(b.base + off, sz, n);
          blocks := blocks[n := b.(used := off + sz)];
          totalAllocated := totalAllocated + sz;
          live := live + [r];
          return;
        }
        totalWasted := totalWasted + (b.cap - b.used);
      }
      var cap := CapFor(sz);
      var off := Offset(Block(base, cap, 0));
      r := Region(base + off, sz, |blocks|);
      blocks := blocks + [Block(base, cap, off + sz)];
      totalAllocated := totalAllocated + sz;
      live := live + [r];
    }

    // The program's mark is the block in use and what is taken of it; m adds what is live.
    method TakeMark() returns (depth: nat, used: nat, ghost m: Mark)
      requires Valid()
      ensures m == Mark(depth, used, live) && depth == |blocks| && GoodMark(m, blocks, live)
    {
      depth, used := |blocks|, if blocks == [] then 0 else blocks[|blocks| - 1].used;
      m := Mark(depth, used, live);
      MarkGood(Trace(blocks, live, []));
    }

    // Back to a mark: what was live then is live, where it was; what came after is gone.
    method Restore(depth: nat, used: nat, ghost m: Mark)
      requires Valid() && m.depth == depth && m.used == used && GoodMark(m, blocks, live)
      modifies this
      ensures Valid() && live == m.live && blocks == RestoredBlocks(old(blocks), m)
    {
      RestoreSound(blocks, live, m);
      while |blocks| > 0 && |blocks| != depth
        invariant depth <= |blocks| <= |old(blocks)| && blocks == old(blocks)[..|blocks|] && live == old(live)
        decreases |blocks|
      {
        blocks := blocks[..|blocks| - 1];
      }
      if |blocks| > 0 { blocks := blocks[|blocks| - 1 := blocks[|blocks| - 1].(used := used)]; }
      live := m.live;
    }

    // Everything goes but the first block.
    method Reset()
      requires Valid()
      modifies this
      ensures Valid() && live == [] && |blocks| == (if |old(blocks)| > 0 then 1 else 0)
    {
      while |blocks| > 1
        invariant |blocks| <= |old(blocks)| && blocks == old(blocks)[..|blocks|] && (old(blocks) != [] ==> blocks != [])
        decreases |blocks|
      {
        blocks := blocks[..|blocks| - 1];
      }
      if |blocks| > 0 { blocks := [blocks[0].(used := 0)]; }
      totalAllocated, totalWasted, live := 0, 0, [];
    }
  }

  // ---- why it is sound

  // A region cut from the last block lies past everything given out of it.
  lemma BumpSound(blocks: seq<Block>, live: seq<Region>, off: nat, sz: nat)
    requires Sound(blocks, live) && blocks != [] && sz >= 1
    requires var b := blocks[|blocks| - 1];
             b.used <= off && off + sz <= b.cap && (b.base + off) % ALIGN == 0
    ensures var n := |blocks| - 1;
            var b := blocks[n];
            Sound(blocks[n := b.(used := off + sz)], live + [Region(b.base + off, sz, n)])
  {
    var n := |blocks| - 1;
    var b := blocks[n];
    var blocks' := blocks[n := b.(used := off + sz)];
    var r := Region(b.base + off, sz, n);
    forall i, j | 0 <= i < j < |blocks'| ensures BlocksApart(blocks'[i], blocks'[j]) {
      assert BlocksApart(blocks[i], blocks[j]);
    }
    forall k {:trigger live[k]} | 0 <= k < |live| ensures Inside(live[k], blocks') && Apart(live[k], r) {
      assert Inside(live[k], blocks);
      if live[k].block < n {
        assert BlocksApart(blocks[live[k].block], b) && blocks[live[k].block].used <= blocks[live[k].block].cap;
      }
    }
  }

  lemma NewSound(blocks: seq<Block>, live: seq<Region>, base: nat, cap: nat, off: nat, sz: nat)
    requires Sound(blocks, live) && sz >= 1 && off + sz <= cap && (base + off) % ALIGN == 0
    requires BlocksClear(blocks, base, cap)
    ensures Sound(blocks + [Block(base, cap, off + sz)], live + [Region(base + off, sz, |blocks|)])
  {
    var blocks' := blocks + [Block(base, cap, off + sz)];
    var r := Region(base + off, sz, |blocks|);
    forall k {:trigger live[k]} | 0 <= k < |live| ensures Inside(live[k], blocks') && Apart(live[k], r) {
      assert Inside(live[k], blocks);
      assert BlocksApart(blocks[live[k].block], Block(base, cap, 0));
      assert blocks[live[k].block].used <= blocks[live[k].block].cap;
    }
  }

  function RestoredBlocks(blocks: seq<Block>, m: Mark): seq<Block>
    requires m.depth <= |blocks|
  {
    if m.depth == 0 then []
    else blocks[..m.depth][m.depth - 1 := blocks[m.depth - 1].(used := m.used)]
  }

  lemma RestoreSound(blocks: seq<Block>, live: seq<Region>, m: Mark)
    requires Sound(blocks, live) && GoodMark(m, blocks, live)
    ensures Sound(RestoredBlocks(blocks, m), m.live)
  {
    var bs := RestoredBlocks(blocks, m);
    forall i, j | 0 <= i < j < |bs| ensures BlocksApart(bs[i], bs[j]) { assert BlocksApart(blocks[i], blocks[j]); }
    forall k {:trigger m.live[k]} | 0 <= k < |m.live| ensures Inside(m.live[k], bs) {
      assert Inside(live[k], blocks) && m.live[k] == live[k];
    }
    forall k, l | 0 <= k < l < |m.live| ensures Apart(m.live[k], m.live[l]) { assert Apart(live[k], live[l]); }
  }

  // A mark stays good over allocations, which is what nesting needs: blocks only grow at the end.
  lemma MarkLasts(m: Mark, blocks: seq<Block>, live: seq<Region>, blocks': seq<Block>, live': seq<Region>)
    requires GoodMark(m, blocks, live) && live <= live' && |blocks| <= |blocks'|
    requires forall i :: 0 <= i < |blocks| ==> blocks'[i].base == blocks[i].base && blocks[i].used <= blocks'[i].used
    ensures GoodMark(m, blocks', live')
  {
    forall k {:trigger m.live[k]} | 0 <= k < |m.live|
      ensures m.live[k].block < m.depth <= |blocks'|
      ensures m.live[k].block == m.depth - 1 ==> m.live[k].addr + m.live[k].size <= blocks'[m.depth - 1].base + m.used
    {
    }
  }

  // An outer mark outlives the return to an inner one.
  lemma OuterMark(outer: Mark, inner: Mark, blocks: seq<Block>, live: seq<Region>)
    requires GoodMark(outer, blocks, live) && GoodMark(inner, blocks, live)
    requires outer.live <= inner.live && outer.depth <= inner.depth && (outer.depth == inner.depth ==>
        outer.used <= inner.used)
    ensures GoodMark(outer, RestoredBlocks(blocks, inner), inner.live)
  {
    var bs := RestoredBlocks(blocks, inner);
    forall k {:trigger outer.live[k]} | 0 <= k < |outer.live|
      ensures outer.live[k].block < outer.depth <= |bs|
      ensures outer.live[k].block == outer.depth - 1 ==>
                outer.live[k].addr + outer.live[k].size <= bs[outer.depth - 1].base + outer.used
    {
    }
  }

  // The arena before and after an allocation: all is sound still, nothing given out has moved, and the new
  // region is large enough.
  ghost predicate Grown(blocks: seq<Block>, live: seq<Region>, bs: seq<Block>, ls: seq<Region>, size: nat) {
    && Sound(bs, ls) && live <= ls && |ls| == |live| + 1 && |blocks| <= |bs|
    && ls[|live|].size >= size
    && forall i :: 0 <= i < |blocks| ==> bs[i].base == blocks[i].base && blocks[i].used <= bs[i].used
  }

  lemma CutLastGrows(blocks: seq<Block>, live: seq<Region>, sz: nat)
    requires Sound(blocks, live) && sz >= 1 && blocks != [] &&
        Offset(blocks[|blocks| - 1]) + sz <= blocks[|blocks| - 1].cap
    ensures var r := CutLast(blocks, live, sz); Grown(blocks, live, r.0, r.1, sz)
  {
    BumpSound(blocks, live, Offset(blocks[|blocks| - 1]), sz);
  }

  // A new block always has room for what was asked, after alignment.
  lemma CutNewGrows(blocks: seq<Block>, live: seq<Region>, sz: nat, base: nat)
    requires Sound(blocks, live) && sz >= 1 && BlocksClear(blocks, base, CapFor(sz))
    ensures var r := CutNew(blocks, live, sz, base); Grown(blocks, live, r.0, r.1, sz)
  {
    NewSound(blocks, live, base, CapFor(sz), Offset(Block(base, CapFor(sz), 0)), sz);
  }

  lemma BumpedSound(blocks: seq<Block>, live: seq<Region>, size: nat, base: nat)
    requires Sound(blocks, live) && Placed(blocks, size, base)
    ensures var r := Bumped(blocks, live, size, base); Grown(blocks, live, r.0, r.1, size)
  {
    if Fits(blocks, size) {
      CutLastGrows(blocks, live, SizeFor(size));
    } else {
      CutNewGrows(blocks, live, SizeFor(size), base);
    }
  }

  // ---- runs of allocations and nested marks

  datatype Step = DoAlloc(size: nat, base: nat) | DoMark | DoRestore

  // The arena under a run, with the marks taken and not yet gone back to, innermost last.
  datatype Trace = Trace(blocks: seq<Block>, live: seq<Region>, marks: seq<Mark>)

  function MarkOf(t: Trace): Mark {
    Mark(|t.blocks|, if t.blocks == [] then 0 else t.blocks[|t.blocks| - 1].used, t.live)
  }

  ghost predicate Allowed(t: Trace, e: Step) {
    match e
    case DoAlloc(size, base) => Placed(t.blocks, size, base)
    case DoMark => true
    case DoRestore => t.marks != [] && t.marks[|t.marks| - 1].depth <= |t.blocks|
  }

  function Apply(t: Trace, e: Step): Trace
    requires e.DoRestore? ==> t.marks != [] && t.marks[|t.marks| - 1].depth <= |t.blocks|
  {
    match e
    case DoAlloc(size, base) =>
      var r := Bumped(t.blocks, t.live, size, base);
      t.(blocks := r.0, live := r.1)
    case DoMark => t.(marks := t.marks + [MarkOf(t)])
    case DoRestore =>
      var m := t.marks[|t.marks| - 1];
      Trace(RestoredBlocks(t.blocks, m), m.live, t.marks[..|t.marks| - 1])
  }

  predicate Nested(outer: Mark, inner: Mark) {
    outer.live <= inner.live && outer.depth <= inner.depth && (outer.depth == inner.depth ==> outer.used <= inner.used)
  }

  ghost predicate TraceOk(t: Trace) {
    && Sound(t.blocks, t.live)
    && (forall i {:trigger t.marks[i]} :: 0 <= i < |t.marks| ==> GoodMark(t.marks[i], t.blocks, t.live))
    && (forall i, j :: 0 <= i < j < |t.marks| ==> Nested(t.marks[i], t.marks[j]))
  }

  lemma MarkGood(t: Trace)
    requires Sound(t.blocks, t.live)
    ensures GoodMark(MarkOf(t), t.blocks, t.live)
  {
    forall k {:trigger t.live[k]} | 0 <= k < |t.live|
      ensures t.live[k].block < |t.blocks|
      ensures t.live[k].block == |t.blocks| - 1 ==>
                t.live[k].addr + t.live[k].size <= t.blocks[|t.blocks| - 1].base + t.blocks[|t.blocks| - 1].used
    {
      assert Inside(t.live[k], t.blocks);
    }
    assert t.live != [] ==> Inside(t.live[0], t.blocks);
  }

  lemma AllocKept(t: Trace, size: nat, base: nat)
    requires TraceOk(t) && Allowed(t, DoAlloc(size, base))
    ensures TraceOk(Apply(t, DoAlloc(size, base)))
  {
    var t' := Apply(t, DoAlloc(size, base));
    BumpedSound(t.blocks, t.live, size, base);
    forall i {:trigger t'.marks[i]} | 0 <= i < |t'.marks| ensures GoodMark(t'.marks[i], t'.blocks, t'.live) {
      MarkLasts(t.marks[i], t.blocks, t.live, t'.blocks, t'.live);
    }
  }

  lemma MarkKept(t: Trace)
    requires TraceOk(t)
    ensures TraceOk(Apply(t, DoMark))
  {
    MarkGood(t);
    forall i | 0 <= i < |t.marks| ensures Nested(t.marks[i], MarkOf(t)) {
      assert GoodMark(t.marks[i], t.blocks, t.live);
    }
  }

  lemma RestoreKept(t: Trace)
    requires TraceOk(t) && Allowed(t, DoRestore)
    ensures TraceOk(Apply(t, DoRestore))
  {
    var t' := Apply(t, DoRestore);
    var m := t.marks[|t.marks| - 1];
    RestoreSound(t.blocks, t.live, m);
    forall i {:trigger t'.marks[i]} | 0 <= i < |t'.marks| ensures GoodMark(t'.marks[i], t'.blocks, t'.live) {
      assert Nested(t.marks[i], m);
      OuterMark(t.marks[i], m, t.blocks, t.live);
    }
  }

  lemma StepKept(t: Trace, e: Step)
    requires TraceOk(t) && Allowed(t, e)
    ensures TraceOk(Apply(t, e))
  {
    match e
    case DoAlloc(size, base) => AllocKept(t, size, base);
    case DoMark => MarkKept(t);
    case DoRestore => RestoreKept(t);
  }

  ghost predicate Run(t: Trace, es: seq<Step>, t': Trace)
    decreases |es|
  {
    if es == [] then t' == t else Allowed(t, es[0]) && Run(Apply(t, es[0]), es[1..], t')
  }

  // How deep in marks the steps go back: never below where they began, and there at the end.
  predicate Balanced(es: seq<Step>, depth: nat)
    decreases |es|
  {
    if es == [] then depth == 0
    else
      match es[0]
      case DoAlloc(_, _) => Balanced(es[1..], depth)
      case DoMark => Balanced(es[1..], depth + 1)
      case DoRestore => depth > 0 && Balanced(es[1..], depth - 1)
  }

  lemma {:induction false} RunKept(t: Trace, es: seq<Step>, t': Trace)
    requires TraceOk(t) && Run(t, es, t')
    ensures TraceOk(t')
    decreases |es|
  {
    if es != [] {
      StepKept(t, es[0]);
      RunKept(Apply(t, es[0]), es[1..], t');
    }
  }

  // The open marks but the last depth of them.
  function Outer(t: Trace, depth: nat): seq<Mark> {
    if depth <= |t.marks| then t.marks[..|t.marks| - depth] else []
  }

  // live was live at the start, and at each of the last depth marks.
  ghost predicate Keeps(t: Trace, depth: nat, live: seq<Region>) {
    && depth <= |t.marks| && live <= t.live
    && forall i {:trigger t.marks[i]} :: |t.marks| - depth <= i < |t.marks| ==> live <= t.marks[i].live
  }

  lemma AllocKeeps(t: Trace, size: nat, base: nat, depth: nat, live: seq<Region>)
    requires TraceOk(t) && Allowed(t, DoAlloc(size, base)) && Keeps(t, depth, live)
    ensures var t1 := Apply(t, DoAlloc(size, base)); Keeps(t1, depth, live) && t1.marks == t.marks
  {
    BumpedSound(t.blocks, t.live, size, base);
  }

  lemma MarkKeeps(t: Trace, depth: nat, live: seq<Region>)
    requires Keeps(t, depth, live)
    ensures var t1 := Apply(t, DoMark); Keeps(t1, depth + 1, live) && Outer(t1, depth + 1) == Outer(t, depth)
  {
  }

  lemma RestoreKeeps(t: Trace, depth: nat, live: seq<Region>)
    requires Allowed(t, DoRestore) && Keeps(t, depth, live) && depth > 0
    ensures var t1 := Apply(t, DoRestore); Keeps(t1, depth - 1, live) && Outer(t1, depth - 1) == Outer(t, depth)
  {
  }

  function Deeper(e: Step, depth: nat): nat {
    match e
    case DoAlloc(_, _) => depth
    case DoMark => depth + 1
    case DoRestore => if depth > 0 then depth - 1 else 0
  }

  lemma StepKeeps(t: Trace, e: Step, depth: nat, live: seq<Region>)
    requires TraceOk(t) && Allowed(t, e) && Keeps(t, depth, live) && (e.DoRestore? ==> depth > 0)
    ensures Keeps(Apply(t, e), Deeper(e, depth), live) && Outer(Apply(t, e), Deeper(e, depth)) == Outer(t, depth)
  {
    match e
    case DoAlloc(size, base) => AllocKeeps(t, size, base, depth, live);
    case DoMark => MarkKeeps(t, depth, live);
    case DoRestore => RestoreKeeps(t, depth, live);
  }

  // Whatever nested marks and returns come in between, what was live at the start stays live.
  lemma {:induction false} BalancedKeeps(t: Trace, es: seq<Step>, t': Trace, depth: nat, live: seq<Region>)
    requires TraceOk(t) && Run(t, es, t') && Balanced(es, depth) && Keeps(t, depth, live)
    ensures live <= t'.live && t'.marks == Outer(t, depth)
    decreases |es|
  {
    if es != [] {
      var e := es[0];
      StepKept(t, e);
      StepKeeps(t, e, depth, live);
      BalancedKeeps(Apply(t, e), es[1..], t', Deeper(e, depth), live);
    }
  }

  // In every run from a new arena: the regions still live are apart, aligned and inside their blocks.
  lemma Safety(t: Trace, es: seq<Step>, t': Trace)
    requires |t.blocks| == 1 && t.blocks[0].used == 0 && t.live == [] && t.marks == [] && Run(t, es, t')
    ensures forall k :: 0 <= k < |t'.live| ==>
              var r := t'.live[k];
              && r.addr % 16 == 0 && r.block < |t'.blocks|
              && t'.blocks[r.block].base <= r.addr
              && r.addr + r.size <= t'.blocks[r.block].base + t'.blocks[r.block].cap
    ensures forall k, l :: 0 <= k < l < |t'.live| ==> Apart(t'.live[k], t'.live[l])
  {
    RunKept(t, es, t');
    forall k | 0 <= k < |t'.live|
      ensures var r := t'.live[k];
              && r.addr % 16 == 0 && r.block < |t'.blocks|
              && t'.blocks[r.block].base <= r.addr
              && r.addr + r.size <= t'.blocks[r.block].base + t'.blocks[r.block].cap
    {
      assert Inside(t'.live[k], t'.blocks);
      assert t'.blocks[t'.live[k].block].used <= t'.blocks[t'.live[k].block].cap;
    }
  }

  // An aligned place for sz bytes in what is left of a block.
  predicate Room(b: Block, at: nat, sz: nat) {
    at % 16 == 0 && b.base + b.used <= at && at + sz <= b.base + b.cap
  }

  ghost predicate HasRoom(b: Block, sz: nat) {
    exists at: nat :: Room(b, at, sz)
  }

  ghost predicate FirstRoom(b: Block, first: nat, sz: nat) {
    Room(b, first, sz) && forall at: nat :: Room(b, at, sz) ==> first <= at
  }

  // A region is as large as asked for, rounded up to sixteen. It lies at the first place of the block in use with
  // room for it, and a new block is taken if and only if there is none.
  lemma AllocTight(blocks: seq<Block>, live: seq<Region>, size: nat, base: nat)
    ensures var (bs, lv) := Bumped(blocks, live, size, base);
            && |lv| == |live| + 1 && (|bs| == |blocks| || |bs| == |blocks| + 1)
            && var r := lv[|live|];
               && r.size % 16 == 0 && size <= r.size < size + 16 + (if size == 0 then 1 else 0) && r.size > 0
               && (|bs| == |blocks| <==> blocks != [] && HasRoom(blocks[|blocks| - 1], r.size))
               && (|bs| == |blocks| ==> FirstRoom(blocks[|blocks| - 1], r.addr, r.size))
  {
    var sz := SizeFor(size);
    if blocks != [] {
      var b := blocks[|blocks| - 1];
      var first := b.base + Offset(b);
      forall at: nat | Room(b, at, sz) ensures first <= at { FirstAligned(b.base + b.used, at); }
      if Fits(blocks, size) { assert Room(b, first, sz); }
    }
  }

  lemma FirstAligned(n: nat, at: nat)
    requires n <= at && at % 16 == 0
    ensures AlignUp(n) <= at
  {
    assert at == at / 16 * 16 && (n + 15) / 16 <= (at + 15) / 16 == at / 16;
  }

  // A block taken for a large request has room for another one of that size.
  lemma LargeTwice(blocks: seq<Block>, live: seq<Region>, size: nat, base: nat)
    requires !Fits(blocks, size) && size > 65536
    ensures var (bs, lv) := Bumped(blocks, live, size, base);
            |bs| == |blocks| + 1 && |Bumped(bs, lv, size, base).0| == |bs|
  {
    var sz := SizeFor(size);
    var b := Block(base, CapFor(sz), 0);
    var off := Offset(b);
    assert (base + off + sz) % 16 == 0;
    FirstAligned(base + off + sz, base + off + sz);
  }

  // Going back to a mark, after anything that balances, gives just what was live when it was taken.
  lemma RestoreExact(t: Trace, es: seq<Step>, t1: Trace)
    requires TraceOk(t) && Balanced(es, 0) && Run(Apply(t, DoMark), es, t1)
    ensures Allowed(t1, DoRestore) && Apply(t1, DoRestore).live == t.live && t.live <= t1.live
  {
    StepKept(t, DoMark);
    var t0 := Apply(t, DoMark);
    BalancedKeeps(t0, es, t1, 0, t.live);
    RunKept(t0, es, t1);
    assert t1.marks == t0.marks;
    assert GoodMark(t1.marks[|t1.marks| - 1], t1.blocks, t1.live);
  }
}
