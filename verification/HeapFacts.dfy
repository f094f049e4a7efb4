// What a well-formed heap means to its clients: the blocks account for every word
// between prologue and epilogue, payloads of allocated blocks are disjoint, and the
// walk of mm_check meets every block.
module HeapFacts {
  import opened HeapLayout
  import opened FreeLists
  import opened Blocks
  import opened HeapSteps

  // The blocks a walk by NEXT_BLKP meets from p up to the epilogue.
  function Walk(h: Layout, p: int): (w: seq<int>)
    decreases h.brk - p
  {
    if p in h.sz && p < h.brk && 0 < h.sz[p] then [p] + Walk(h, p + h.sz[p]) else []
  }

  function Sum(w: seq<int>, sz: map<int, int>): int
  {
    if w == [] then 0 else (if w[0] in sz then sz[w[0]] else 0) + Sum(w[1..], sz)
  }

  // The sizes of the blocks from p on add up to the distance to the end of the heap.
  lemma {:induction false} WalkSum(h: Layout, p: int)
    requires Tiled(h) && (p in h.sz || p == h.brk)
    ensures Sum(Walk(h, p), h.sz) == h.brk - p
    decreases h.brk - p
  {
    if p in h.sz {
      assert Succ(h, p);
      WalkSum(h, p + h.sz[p]);
      assert Walk(h, p)[1..] == Walk(h, p + h.sz[p]);
    } else {
      assert Walk(h, p) == [];
    }
  }

  // The walk meets exactly the blocks at or after p, in ascending order.
  lemma {:induction false} WalkMeets(h: Layout, p: int)
    requires Tiled(h) && (p in h.sz || p == h.brk)
    ensures forall q :: q in Walk(h, p) <==> q in h.sz && p <= q
    ensures forall i, j | 0 <= i < j < |Walk(h, p)| :: Walk(h, p)[i] < Walk(h, p)[j]
    decreases h.brk - p
  {
    if p in h.sz {
      var n := p + h.sz[p];
      assert Succ(h, p);
      WalkMeets(h, n);
      assert Walk(h, p) == [p] + Walk(h, n);
      forall q ensures q in Walk(h, p) <==> q in h.sz && p <= q {
        if q in h.sz && p < q { InOrder(h, p, q); }
      }
      forall i, j | 0 <= i < j < |Walk(h, p)| ensures Walk(h, p)[i] < Walk(h, p)[j] {
        assert Walk(h, p)[j] == Walk(h, n)[j-1] && Walk(h, n)[j-1] in Walk(h, n);
      }
    } else {
      forall q ensures !(q in h.sz && p <= q) {
        if q in h.sz { assert q + h.sz[q] <= h.brk && 3 <= h.sz[q]; }
      }
    }
  }

  // Conservation: the heap is its 27 words of sentinels, prologue and epilogue plus
  // the blocks, each met once by the walk from the prologue.
  lemma WordsAccountedFor(m: seq<int>, h: Layout)
    requires WF(m, h)
    ensures var w := Walk(h, First(h));
      && h.brk - h.lo == 27 + Sum(w, h.sz)
      && (forall q :: q in w <==> q in h.sz)
      && (forall i, j | 0 <= i < j < |w| :: w[i] < w[j])
  {
    WalkSum(h, First(h));
    WalkMeets(h, First(h));
  }

  // Payloads of allocated blocks lie inside the heap and do not overlap; addresses
  // are whole words, so they are 8-aligned.
  lemma PayloadsDisjoint(m: seq<int>, h: Layout, p: int, q: int)
    requires WF(m, h) && p in h.live && q in h.live && p != q
    ensures p in h.sz && q in h.sz
    ensures First(h) <= p && p + h.sz[p] - 2 < h.brk
    ensures p + h.sz[p] - 2 < q - 1 || q + h.sz[q] - 2 < p - 1
  {
    assert h.sz[p] + h.sz[q] > 0;
  }

  // ------------------------------------------------------------------ mm_check

  // The free index is exact: LAST_FREE_BP is set exactly if the last block is free, and
  // then is that block; every other free block is in one place of one list, the one of
  // its size class; and the lists hold nothing else.
  lemma FreeIndexExact(m: seq<int>, h: Layout)
    requires WF(m, h) && h.out == {}
    ensures h.last != NULL ==> h.last in h.sz && h.last !in h.live && h.last + h.sz[h.last] == h.brk
    ensures forall p | p in h.sz && p !in h.live && p + h.sz[p] == h.brk :: p == h.last != NULL
    ensures |h.lists| == NUM_FL
    ensures forall p | p in h.sz && p !in h.live && p + h.sz[p] != h.brk :: p in h.lists[ClassOf(h.sz[p])]
    ensures forall k, i | 0 <= k < NUM_FL && 0 <= i < |h.lists[k]| ::
      var p := h.lists[k][i];
      p in h.sz && p !in h.live && p + h.sz[p] != h.brk && ClassOf(h.sz[p]) == k
    ensures forall k, i, l, j | 0 <= k < NUM_FL && 0 <= i < |h.lists[k]| && 0 <= l < NUM_FL && 0 <= j < |h.lists[l]| ::
      h.lists[k][i] == h.lists[l][j] ==> k == l && i == j
  {
    forall k, i | 0 <= k < NUM_FL && 0 <= i < |h.lists[k]| ensures ListedAt(h, h.lists[k][i], k) {}
    forall p | p in h.sz && p !in h.live && p + h.sz[p] == h.brk ensures p == h.last != NULL {
      assert First(h) <= p;
    }
  }

  // In a healthy heap every block's header equals its footer and says what the block is;
  // a free block that is not the last one has at least 32 bytes.
  lemma HeaderIsFooter(m: seq<int>, h: Layout, p: int)
    requires WF(m, h) && h.out == {} && h.tiny == {} && p in h.sz
    ensures 1 <= p && p + h.sz[p] - 2 < |m| && 3 <= h.sz[p]
    ensures m[p-1] == m[p + h.sz[p] - 2] == Pack(h.sz[p], if p in h.live then 1 else 0)
    ensures p !in h.live && p + h.sz[p] != h.brk ==> 32 <= 8 * h.sz[p]
  {
    assert TagsAt(m, h, p);
    if p !in h.live && p + h.sz[p] != h.brk {
      FreeIndexExact(m, h);
      var k := ClassOf(h.sz[p]);
      var i :| 0 <= i < |h.lists[k]| && h.lists[k][i] == p;
      assert ListedAt(h, p, k);
    }
  }

  // What mm_check reads at block c of its walk: header and footer differ exactly at a
  // tiny block, whose footer word is a link.
  lemma CheckedBlock(m: seq<int>, h: Layout, c: int)
    requires WF(m, h) && h.out == {} && c in h.sz
    ensures 3 <= h.sz[c] && 1 <= c && c + h.sz[c] - 1 <= |m| && SizeOf(m[c-1]) == h.sz[c]
    ensures var foot := m[c + h.sz[c] - 2];
      (SizeOf(m[c-1]) != SizeOf(foot) || AllocOf(m[c-1]) != AllocOf(foot)) <==> c in h.tiny
    ensures c !in h.live ==> AllocOf(m[c-1]) == 0
    ensures c + h.sz[c] == h.brk || c + h.sz[c] in h.sz
  {
    assert TagsAt(m, h, c) && Succ(h, c);
    Packed(h.sz[c], if c in h.live then 1 else 0);
    if c in h.tiny { TinyFooter(m, h, c); }
  }

  lemma TinyFooter(m: seq<int>, h: Layout, c: int)
    requires WF(m, h) && h.out == {} && c in h.tiny && c in h.sz
    ensures c + 1 < |m| && SizeOf(m[c+1]) != 3
  {
    var k := ClassOf(h.sz[c]);
    var i := FindEntry(m, h, c);
    LinksOf(m, h, k, i);
    NodePlace(h, k, i + 2);
    assert m[c+1] == 8 * Chain(h, k)[i+2];
    assert Chain(h, k)[i+2] >= 4;
  }

  lemma TinyAhead(h: Layout, c: int)
    requires Tiled(h) && Indexed(h) && (c == h.lo + 25 || (c in h.sz && c !in h.tiny))
    requires forall t | t in h.tiny :: c <= t
    ensures var n := if c in h.sz then h.sz[c] else 2; forall t | t in h.tiny :: c + n <= t
  {
    forall t | t in h.tiny ensures c + (if c in h.sz then h.sz[c] else 2) <= t {
      if c in h.sz { InOrder(h, c, t); }
    }
  }

  lemma TinyBelowEnd(h: Layout)
    requires Tiled(h) && Indexed(h)
    ensures forall t | t in h.tiny :: t < h.brk
  {
    forall t | t in h.tiny ensures t < h.brk { assert t + h.sz[t] <= h.brk; }
  }

  // Whatever a client writes into the payload of its own block.
  lemma StoreStep(m: seq<int>, m': seq<int>, h: Layout, p: int)
    requires WF(m, h) && h.out == {} && p in h.live && p in h.sz
    requires |m'| == |m| && forall i | 0 <= i < |m| && !(p <= i < p + h.sz[p] - 2) :: m'[i] == m[i]
    ensures WF(m', h)
    ensures SameBlocks(m, m', h.live - {p}, h.sz)
  {
    LiveFacts(m, h, p);
    SetsOf(m, h);
    LiveTagged(m, h, p);
    hide WF;
    TakeWF(m, h, p);
    WriteHeld(m, m', Held(h, p), p);
    ReleaseWF(m', Held(h, p), p);
    assert Released(Held(h, p), p) == h;
    SameBlocksLess(m, m', h.sz.Keys - {p}, h.live - {p}, h.sz);
  }

  lemma LiveTagged(m: seq<int>, h: Layout, p: int)
    requires WF(m, h) && p in h.live
    ensures p in h.sz && Tagged(m, p, h.sz[p], 1)
  {
    assert TagsAt(m, h, p);
  }
}
