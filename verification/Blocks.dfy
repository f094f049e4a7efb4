// Splitting, merging, taking, releasing and appending blocks.  A held block has no
// tags to keep, so splitting and merging held blocks changes no word of the heap.
module Blocks {
  import opened HeapLayout

  // Block p becomes a block of k words followed by a block of the rest.
  function SplitAt(h: Layout, p: int, k: int): Layout
    requires p in h.sz
  {
    h.(sz := h.sz[p := k][p + k := h.sz[p] - k], out := h.out + {p + k})
  }

  // Block p absorbs its successor.
  function Absorb(h: Layout, p: int): Layout
    requires p in h.sz && p + h.sz[p] in h.sz
  {
    var q := p + h.sz[p];
    h.(sz := (h.sz - {q})[p := h.sz[p] + h.sz[q]], out := h.out - {q})
  }

  // The old epilogue header becomes the header of a new block of k words.
  function Append(h: Layout, k: int): Layout
  {
    h.(sz := h.sz[h.brk := k], brk := h.brk + k, out := h.out + {h.brk})
  }

  // No block starts inside another.
  lemma NotInside(h: Layout, p: int, q: int)
    requires Tiled(h) && p in h.sz && p < q < p + h.sz[p]
    ensures q !in h.sz
  {
    if q in h.sz { InOrder(h, p, q); }
  }

  lemma InOrder(h: Layout, p: int, q: int)
    requires Tiled(h) && p in h.sz && q in h.sz && p < q
    ensures p + h.sz[p] <= q
  {
  }

  // Only one block ends where block q starts.
  lemma OnePredecessor(h: Layout, p: int, r: int)
    requires Tiled(h) && p in h.sz && r in h.sz && p + h.sz[p] == r + h.sz[r]
    ensures r == p
  {
  }

  lemma SplitOrder(h: Layout, p: int, k: int)
    requires Tiled(h) && p in h.sz && 3 <= k && 3 <= h.sz[p] - k
    ensures p + k !in h.sz
    ensures Ordered(SplitAt(h, p, k).sz)
  {
    NotInside(h, p, p + k);
    var sz := SplitAt(h, p, k).sz;
    forall a, b {:trigger sz[a], sz[b]} | a in sz && b in sz && a < b
      ensures a + sz[a] <= b
    {
      var a0, b0 := if a == p + k then p else a, if b == p + k then p else b;
      assert a0 in h.sz && b0 in h.sz && h.sz[a0] + h.sz[b0] > 0;
    }
  }

  lemma SplitSucc(h: Layout, p: int, k: int, q: int)
    requires Tiled(h) && p in h.sz && q in SplitAt(h, p, k).sz
    ensures Succ(SplitAt(h, p, k), q)
  {
    if q == p + k { assert Succ(h, p); } else { assert Succ(h, q); }
  }

  lemma SplitTiled(h: Layout, p: int, k: int)
    requires Tiled(h) && p in h.sz && 3 <= k && 3 <= h.sz[p] - k
    ensures Tiled(SplitAt(h, p, k))
    ensures p + k !in h.sz
  {
    var h' := SplitAt(h, p, k);
    SplitOrder(h, p, k);
    assert Bounded(h');
    forall q | q in h'.sz
      ensures Succ(h', q)
    {
      SplitSucc(h, p, k, q);
    }
  }

  lemma SplitWF(m: seq<int>, h: Layout, p: int, k: int)
    requires WF(m, h) && p in h.out && 3 <= k && 3 <= h.sz[p] - k
    ensures p + k !in h.sz && WF(m, SplitAt(h, p, k))
  {
    SplitTiled(h, p, k);
    var h' := SplitAt(h, p, k);
    SplitIndexed(h, p, k);
    TagsFrame(m, h, h');
    ChainsFrame(m, h, h');
  }

  lemma SplitIndexed(h: Layout, p: int, k: int)
    requires Tiled(h) && Indexed(h) && p in h.out && p + k !in h.sz
    ensures Indexed(SplitAt(h, p, k))
  {
    var h' := SplitAt(h, p, k);
    forall k', i | 0 <= k' < NUM_FL && 0 <= i < |h'.lists[k']|
      ensures ListedAt(h', h'.lists[k'][i], k')
    {
      assert ListedAt(h, h.lists[k'][i], k');
    }
  }

  // Blocks that are not held keep their size, so their tags stay right.
  lemma TagsFrame(m: seq<int>, h: Layout, h': Layout)
    requires Tags(m, h) && h'.lo == h.lo && h'.brk == h.brk && h'.live == h.live && h'.tiny == h.tiny
    requires forall q | q in h'.sz && q !in h'.out :: q in h.sz && q !in h.out && h'.sz[q] == h.sz[q]
    ensures Tags(m, h')
  {
    forall q | q in h'.sz && q !in h'.out ensures TagsAt(m, h', q) {
      assert TagsAt(m, h, q);
    }
  }

  lemma AbsorbOrder(h: Layout, p: int)
    requires Tiled(h) && p in h.sz && p + h.sz[p] in h.sz
    ensures Ordered(Absorb(h, p).sz)
  {
    var q := p + h.sz[p];
    var sz := Absorb(h, p).sz;
    forall a, b {:trigger sz[a], sz[b]} | a in sz && b in sz && a < b
      ensures a + sz[a] <= b
    {
      assert h.sz[a] + h.sz[b] > 0;
      assert h.sz[q] + h.sz[b] > 0;
    }
  }

  lemma AbsorbTiled(h: Layout, p: int)
    requires Tiled(h) && p in h.sz && p + h.sz[p] in h.sz
    ensures Tiled(Absorb(h, p))
  {
    var h' := Absorb(h, p);
    AbsorbOrder(h, p);
    assert Bounded(h');
    forall r | r in h'.sz
      ensures Succ(h', r)
    {
      AbsorbSucc(h, p, r);
    }
  }

  lemma AbsorbSucc(h: Layout, p: int, r: int)
    requires Tiled(h) && p in h.sz && p + h.sz[p] in h.sz && r in Absorb(h, p).sz
    ensures Succ(Absorb(h, p), r)
  {
    assert Succ(h, p + h.sz[p]) && Succ(h, r);
    if r + h.sz[r] == p + h.sz[p] { OnePredecessor(h, p, r); }
  }

  lemma AbsorbWF(m: seq<int>, h: Layout, p: int)
    requires WF(m, h) && p in h.out && p + h.sz[p] in h.out
    ensures WF(m, Absorb(h, p))
  {
    AbsorbTiled(h, p);
    var h' := Absorb(h, p);
    AbsorbIndexed(h, p);
    TagsFrame(m, h, h');
    ChainsFrame(m, h, h');
  }

  lemma AbsorbIndexed(h: Layout, p: int)
    requires Indexed(h) && p in h.out && p + h.sz[p] in h.out && p !in h.live && p + h.sz[p] > p
    ensures Indexed(Absorb(h, p))
  {
    var h' := Absorb(h, p);
    forall k', i | 0 <= k' < NUM_FL && 0 <= i < |h'.lists[k']|
      ensures ListedAt(h', h'.lists[k'][i], k')
    {
      assert ListedAt(h, h.lists[k'][i], k');
    }
  }

  lemma ChainsFrame(m: seq<int>, h: Layout, h': Layout)
    requires |h.lists| == NUM_FL && Chains(m, h) && h'.lists == h.lists && h'.lo == h.lo
    ensures Chains(m, h')
  {
    forall k | 0 <= k < NUM_FL ensures Linked(m, Chain(h', k)) {
      assert Linked(m, Chain(h, k));
    }
  }

  // A held block becomes an allocated one once its tags say so.
  lemma ReleaseWF(m: seq<int>, h: Layout, p: int)
    requires WF(m, h) && p in h.out && Tagged(m, p, h.sz[p], 1)
    ensures WF(m, h.(out := h.out - {p}, live := h.live + {p}))
  {
    var h' := h.(out := h.out - {p}, live := h.live + {p});
    Reindexed(h, h');
    ChainsFrame(m, h, h');
  }

  // An allocated block may be held.
  lemma TakeWF(m: seq<int>, h: Layout, p: int)
    requires WF(m, h) && p in h.live
    ensures WF(m, h.(out := h.out + {p}, live := h.live - {p}))
  {
    var h' := h.(out := h.out + {p}, live := h.live - {p});
    Reindexed(h, h');
    ChainsFrame(m, h, h');
  }

  lemma Reindexed(h: Layout, h': Layout)
    requires Tiled(h) && Indexed(h)
    requires h'.lo == h.lo && h'.brk == h.brk && h'.sz == h.sz && h'.lists == h.lists && h'.last == h.last
    requires h'.tiny == h.tiny
    requires h'.live !! h'.out && h'.live + h'.out == h.live + h.out
    ensures Tiled(h') && Indexed(h')
  {
    SameTiled(h, h');
    forall q | q in h.sz ensures q in h'.live || q in h'.out <==> q in h.live || q in h.out {
      assert q in h'.live + h'.out <==> q in h.live + h.out;
    }
    forall k', i | 0 <= k' < NUM_FL && 0 <= i < |h'.lists[k']|
      ensures ListedAt(h', h'.lists[k'][i], k')
    {
      assert ListedAt(h, h.lists[k'][i], k');
    }
    assert h'.last != NULL ==> h'.last !in h'.live + h'.out;
  }

  // LAST_FREE_BP := NULL and LAST_FREE_BP := p.
  lemma DropLastIndexed(h: Layout)
    requires Tiled(h) && Indexed(h) && h.last != NULL
    ensures Indexed(h.(last := NULL, out := h.out + {h.last}))
  {
    var h' := h.(last := NULL, out := h.out + {h.last});
    forall k', i | 0 <= k' < NUM_FL && 0 <= i < |h'.lists[k']|
      ensures ListedAt(h', h'.lists[k'][i], k')
    {
      assert ListedAt(h, h.lists[k'][i], k');
    }
  }

  lemma DropLastWF(m: seq<int>, h: Layout)
    requires WF(m, h) && h.last != NULL
    ensures WF(m, h.(last := NULL, out := h.out + {h.last}))
  {
    var h' := h.(last := NULL, out := h.out + {h.last});
    DropLastIndexed(h);
    RetagWF(m, h, h');
  }

  lemma SetLastIndexed(h: Layout, p: int)
    requires Tiled(h) && Indexed(h) && h.last == NULL && p in h.out && p + h.sz[p] == h.brk
    ensures Indexed(h.(last := p, out := h.out - {p}))
  {
    var h' := h.(last := p, out := h.out - {p});
    forall k', i | 0 <= k' < NUM_FL && 0 <= i < |h'.lists[k']|
      ensures ListedAt(h', h'.lists[k'][i], k')
    {
      assert ListedAt(h, h.lists[k'][i], k');
    }
  }

  lemma SetLastWF(m: seq<int>, h: Layout, p: int)
    requires WF(m, h) && h.last == NULL && p in h.out && p + h.sz[p] == h.brk && Tagged(m, p, h.sz[p], 0)
    ensures WF(m, h.(last := p, out := h.out - {p}))
  {
    var h' := h.(last := p, out := h.out - {p});
    SetLastIndexed(h, p);
    RetagWF(m, h, h');
  }

  // The tiling, the lists and the words are as before; only the index changed.
  lemma RetagWF(m: seq<int>, h: Layout, h': Layout)
    requires WF(m, h) && h'.lo == h.lo && h'.brk == h.brk && h'.sz == h.sz && h'.lists == h.lists
    requires h'.live == h.live && h'.tiny == h.tiny && Indexed(h')
    requires forall p | p in h.out && p !in h'.out ::
      p !in h.live && p !in h.tiny && p in h.sz && Tagged(m, p, h.sz[p], 0)
    ensures WF(m, h')
  {
    SameTiled(h, h');
    RetagTags(m, h, h');
    ChainsFrame(m, h, h');
  }

  lemma RetagTags(m: seq<int>, h: Layout, h': Layout)
    requires Tags(m, h) && h'.lo == h.lo && h'.brk == h.brk && h'.sz == h.sz
    requires h'.live == h.live && h'.tiny == h.tiny
    requires forall p | p in h.out && p !in h'.out ::
      p !in h.live && p !in h.tiny && p in h.sz && Tagged(m, p, h.sz[p], 0)
    ensures Tags(m, h')
  {
    forall q | q in h'.sz && q !in h'.out ensures TagsAt(m, h', q) {
      if q !in h.out { assert TagsAt(m, h, q); }
    }
  }

  // mem_sbrk followed by the new epilogue header.  Only words at or above the old
  // epilogue header may have changed.
  lemma AppendWF(m: seq<int>, m': seq<int>, h: Layout, k: int)
    requires WF(m, h) && h.last == NULL && 3 <= k && h.brk + k <= |m|
    requires |m'| == |m| && m'[h.brk + k - 1] == Pack(0, 1)
    requires forall i | 0 <= i < h.brk - 1 :: m'[i] == m[i]
    ensures WF(m', Append(h, k))
    ensures SameBlocks(m, m', h.sz.Keys, h.sz)
  {
    AppendTiled(h, k);
    AppendIndexed(h, k);
    AppendTags(m, m', h, k);
    AppendChains(m, m', h, k);
  }

  lemma AppendTags(m: seq<int>, m': seq<int>, h: Layout, k: int)
    requires Tiled(h) && Tags(m, h) && 3 <= k && h.brk + k <= |m|
    requires |m'| == |m| && m'[h.brk + k - 1] == Pack(0, 1)
    requires forall i | 0 <= i < h.brk - 1 :: m'[i] == m[i]
    ensures Tags(m', Append(h, k))
    ensures SameBlocks(m, m', h.sz.Keys, h.sz)
  {
    var h' := Append(h, k);
    forall q | q in h'.sz && q !in h'.out
      ensures TagsAt(m', h', q)
    {
      assert TagsAt(m, h, q);
    }
  }

  lemma AppendChains(m: seq<int>, m': seq<int>, h: Layout, k: int)
    requires Tiled(h) && Indexed(h) && Chains(m, h) && h.brk <= |m|
    requires |m'| == |m|
    requires forall i | 0 <= i < h.brk - 1 :: m'[i] == m[i]
    ensures Chains(m', Append(h, k))
  {
    forall k' | 0 <= k' < NUM_FL
      ensures Linked(m', Chain(Append(h, k), k'))
    {
      assert Linked(m, Chain(h, k'));
      forall i | 0 <= i < |h.lists[k']| ensures h.lists[k'][i] + 1 < h.brk - 1 {
        assert ListedAt(h, h.lists[k'][i], k');
      }
    }
  }

  lemma AppendTiled(h: Layout, k: int)
    requires Tiled(h) && 3 <= k
    ensures Tiled(Append(h, k))
  {
    var h' := Append(h, k);
    forall q | q in h'.sz
      ensures Succ(h', q)
    {
      if q != h.brk { assert Succ(h, q); }
    }
  }

  lemma AppendIndexed(h: Layout, k: int)
    requires Tiled(h) && Indexed(h) && h.last == NULL && 3 <= k
    ensures Indexed(Append(h, k))
  {
    var h' := Append(h, k);
    assert forall q | q in h.sz :: q < h.brk;
    forall k', i | 0 <= k' < NUM_FL && 0 <= i < |h'.lists[k']|
      ensures ListedAt(h', h'.lists[k'][i], k')
    {
      assert ListedAt(h, h.lists[k'][i], k');
    }
  }
}
