// Page buffers: the search loops and the in-place insertions into a leaf page and an internal page.

module BTreePages {
  import opened BTreeModel
  import opened BTreeOrder
  import opened BTreeIndex

  const MAGIC: int := 0x44464F42545245FF
  const VERSION: int := 1

  // The content of one page of the file; next is -1 at the end of the leaf chain.
  datatype Page =
    | Blank
    | Header(magic: int, version: int, root: nat, nkeys: nat, npages: nat)
    | LeafRec(ents: seq<Entry>, next: int)
    | IntRec(keys: seq<int>, chs: seq<nat>)

  lemma SlotIs(keys: seq<int>, k: int, p: nat)
    requires StopsAt(keys, k, p)
    ensures p == Slot(keys, k)
  {
  }

  lemma LowSlotIs(keys: seq<int>, k: int, p: nat)
    requires StopsLow(keys, k, p)
    ensures p == LowSlot(keys, k)
  {
  }

  // s with x put at position p, element by element.
  lemma OpenedAt<T>(a: seq<T>, s: seq<T>, p: nat, x: T)
    requires p <= |s| && |a| == |s| + 1 && a[p] == x
    requires forall j :: 0 <= j < p ==> a[j] == s[j]
    requires forall j :: p < j < |a| ==> a[j] == s[j - 1]
    ensures a == s[..p] + [x] + s[p..]
  {
  }

  // A leaf page read into memory.
  class LeafBuf {
    var n: nat
    var next: int
    const ents: array<Entry>

    ghost predicate Ok()
      reads this
    {
      n <= LEAF_MAX && ents.Length == LEAF_MAX
    }

    ghost function Ents(): seq<Entry>
      reads this, ents
      requires Ok()
    {
      ents[..n]
    }

    constructor (es: seq<Entry>, nx: int)
      requires |es| <= LEAF_MAX
      ensures Ok() && Ents() == es && next == nx && fresh(ents)
    {
      n := |es|;
      next := nx;
      ents := new Entry[LEAF_MAX](i => if 0 <= i < |es| then es[i] else Entry(0, 0));
    }

    // Linear search for the insertion slot.
    method Find(key: int) returns (pos: nat)
      requires Ok()
      ensures pos == EntSlot(Ents(), key)
    {
      pos := 0;
      while pos < n && ents[pos].key <= key
        invariant pos <= n && forall i :: 0 <= i < pos ==> ents[i].key <= key
      {
        pos := pos + 1;
      }
      EntSlotUnique(Ents(), key, pos);
    }

    // Insertion into a page with room: the tail moves up one slot.
    method Put(pos: nat, e: Entry)
      requires Ok() && n < LEAF_MAX && pos == EntSlot(Ents(), e.key)
      modifies this, ents
      ensures Ok() && next == old(next)
      ensures Ents() == Place(old(Ents()), e)
    {
      forall i | pos <= i < n {
        ents[i + 1] := ents[i];
      }
      ents[pos] := e;
      n := n + 1;
    }

    // A full page with one entry more, cut in the middle; the lower half stays, linked to page rno.
    method Divide(pos: nat, e: Entry, rno: nat) returns (right: LeafBuf, mk: int)
      requires Ok() && n == LEAF_MAX && pos == EntSlot(Ents(), e.key)
      modifies this, ents
      ensures Ok() && right.Ok() && fresh(right) && fresh(right.ents)
      ensures var s := Place(old(Ents()), e);
              Ents() == s[..128] && right.Ents() == s[128..] && mk == s[128].key
      ensures next == rno && right.next == old(next)
    {
      ghost var s := Place(Ents(), e);
      var tmp := new Entry[LEAF_MAX + 1](i requires 0 <= i <= LEAF_MAX reads this, ents =>
        if ents.Length != LEAF_MAX then e
        else if i < pos then ents[i] else if i == pos then e else ents[i - 1]);
      assert tmp[..] == s;
      var mid := (LEAF_MAX + 1) / 2;
      forall i | 0 <= i < mid {
        ents[i] := tmp[i];
      }
      n := mid;
      right := new LeafBuf(tmp[mid..], next);
      next := rno;
      mk := tmp[mid].key;
    }
  }

  // An internal page read into memory.
  class IntBuf {
    var n: nat
    const keys: array<int>
    const chs: array<nat>

    ghost predicate Ok()
      reads this
    {
      n <= INT_MAX && keys.Length == INT_MAX && chs.Length == INT_MAX + 1 && keys != chs as object
    }

    ghost function Keys(): seq<int>
      reads this, keys
      requires Ok()
    {
      keys[..n]
    }

    ghost function Chs(): seq<nat>
      reads this, chs
      requires Ok()
    {
      chs[..n + 1]
    }

    constructor (ks: seq<int>, cs: seq<nat>)
      requires |ks| <= INT_MAX && |cs| == |ks| + 1
      ensures Ok() && Keys() == ks && Chs() == cs && fresh(keys) && fresh(chs)
    {
      n := |ks|;
      keys := new int[INT_MAX](i => if 0 <= i < |ks| then ks[i] else 0);
      chs := new nat[INT_MAX + 1](i => if 0 <= i < |cs| then cs[i] else 0);
    }

    method Find(key: int) returns (pos: nat)
      requires Ok()
      ensures pos == Slot(Keys(), key)
    {
      pos := 0;
      while pos < n && key >= keys[pos]
        invariant pos <= n && forall i :: 0 <= i < pos ==> keys[i] <= key
      {
        pos := pos + 1;
      }
      SlotIs(Keys(), key, pos);
    }

    method FindLow(key: int) returns (pos: nat)
      requires Ok()
      ensures pos == LowSlot(Keys(), key)
    {
      pos := 0;
      while pos < n && key > keys[pos]
        invariant pos <= n && forall i :: 0 <= i < pos ==> keys[i] < key
      {
        pos := pos + 1;
      }
      LowSlotIs(Keys(), key, pos);
    }

    // Keys and children right of the slot move up one by one, from the end.
    method Shift(pos: nat)
      requires Ok() && pos <= n < INT_MAX
      modifies keys, chs
      ensures forall k :: 0 <= k < pos ==> keys[k] == old(keys[k])
      ensures forall k {:trigger keys[k]} :: pos < k <= n ==> keys[k] == old(keys[k - 1])
      ensures forall k :: 0 <= k <= pos ==> chs[k] == old(chs[k])
      ensures forall k {:trigger chs[k]} :: pos + 1 < k <= n + 1 ==> chs[k] == old(chs[k - 1])
    {
      var i := n;
      while i > pos
        invariant pos <= i <= n
        invariant forall k :: 0 <= k < i ==> keys[k] == old(keys[k])
        invariant forall k {:trigger keys[k]} :: i < k <= n ==> keys[k] == old(keys[k - 1])
        invariant forall k :: 0 <= k <= i ==> chs[k] == old(chs[k])
        invariant forall k {:trigger chs[k]} :: i + 1 < k <= n + 1 ==> chs[k] == old(chs[k - 1])
      {
        keys[i] := keys[i - 1];
        chs[i + 1] := chs[i];
        i := i - 1;
      }
    }

    // Insertion into a page with room.
    method Put(pos: nat, key: int, rc: nat)
      requires Ok() && n < INT_MAX && pos == Slot(Keys(), key)
      modifies this, keys, chs
      ensures Ok()
      ensures Keys() == SepsWith(old(Keys()), key) && Chs() == With(old(Chs()), pos, rc)
    {
      ghost var ks, cs := Keys(), Chs();
      Shift(pos);
      SetBoth(pos, key, rc);
      n := n + 1;
      OpenedAt(keys[..n], ks, pos, key);
      OpenedAt(chs[..n + 1], cs, pos + 1, rc);
    }

    method SetBoth(pos: nat, key: int, rc: nat)
      requires Ok() && pos <= n < INT_MAX
      modifies keys, chs
      ensures keys[..] == old(keys[..])[pos := key] && chs[..] == old(chs[..])[pos + 1 := rc]
    {
      keys[pos] := key;
      chs[pos + 1] := rc;
    }

    // The keys and children of a full page with one more of each, in temporary arrays.
    method Widen(pos: nat, key: int, rc: nat) returns (tkeys: array<int>, tchs: array<nat>)
      requires Ok() && n == INT_MAX && pos == Slot(Keys(), key)
      ensures fresh(tkeys) && tkeys[..] == SepsWith(Keys(), key)
      ensures fresh(tchs) && tchs[..] == With(Chs(), pos, rc)
    {
      tkeys, tchs := new int[INT_MAX + 1], new nat[INT_MAX + 2];
      for i := 0 to n + 1
        modifies tchs
        invariant forall j :: 0 <= j < i ==> tchs[j] == chs[j]
      {
        tchs[i] := chs[i];
      }
      for i := 0 to n
        modifies tkeys
        invariant forall j :: 0 <= j < i ==> tkeys[j] == keys[j]
      {
        tkeys[i] := keys[i];
      }
      forall i | pos <= i < n {
        tkeys[i + 1] := tkeys[i];
      }
      forall i | pos + 1 <= i <= n {
        tchs[i + 1] := tchs[i];
      }
      tkeys[pos] := key;
      tchs[pos + 1] := rc;
      OpenedAt(tkeys[..], Keys(), pos, key);
      OpenedAt(tchs[..], Chs(), pos + 1, rc);
    }

    // A full page with one key more: the middle key goes up and into neither half.
    method Divide(pos: nat, key: int, rc: nat) returns (right: IntBuf, mk: int)
      requires Ok() && n == INT_MAX && pos == Slot(Keys(), key)
      modifies this, keys, chs
      ensures Ok() && right.Ok() && fresh(right) && fresh(right.keys) && fresh(right.chs)
      ensures var ss, cs := SepsWith(old(Keys()), key), With(old(Chs()), pos, rc);
              && Keys() == ss[..170] && Chs() == cs[..171] && mk == ss[170]
              && right.Keys() == ss[171..] && right.Chs() == cs[171..]
    {
      var tkeys, tchs := Widen(pos, key, rc);
      ghost var ss, cs := tkeys[..], tchs[..];
      var mid := (n + 1) / 2;
      n := mid;
      CopyLeft(tkeys, tchs, mid);
      assert keys[..mid] == ss[..mid] && chs[..mid + 1] == cs[..mid + 1];
      right := new IntBuf(tkeys[mid + 1..], tchs[mid + 1..]);
      mk := tkeys[mid];
    }

    // The left half, back from the temporary arrays.
    method CopyLeft(tkeys: array<int>, tchs: array<nat>, mid: nat)
      requires mid <= keys.Length && mid < chs.Length && mid <= tkeys.Length && mid < tchs.Length
      requires tkeys != keys && tchs != chs
      modifies keys, chs
      ensures keys[..mid] == old(tkeys[..mid]) && chs[..mid + 1] == old(tchs[..mid + 1])
    {
      ghost var ss, cs := tkeys[..], tchs[..];
      chs[0] := tchs[0];
      for i := 0 to mid
        modifies keys, chs
        invariant keys[..i] == ss[..i] && chs[..i + 1] == cs[..i + 1]
      {
        keys[i] := tkeys[i];
        chs[i + 1] := tchs[i + 1];
        assert ss[..i + 1] == ss[..i] + [ss[i]] && cs[..i + 2] == cs[..i + 1] + [cs[i + 1]];
      }
    }
  }
}
