// The heap of malloclab-handout/mm.c as an array of 8-byte words: boundary tags,
// eight doubly linked free lists threaded through the free blocks, and the
// separately tracked last free block.
//
// Addresses and sizes count 8-byte words, so the word with index i is the word at
// byte address 8*i.  A header or footer holds PACK(8*n, alloc) for a block of n
// words, and a link word holds the byte address 8*p of the block it points to.
module HeapLayout {

  // mm.c:53-54 and the sentinel area mm_init lays out below the first block.
  const NUM_FL := 8
  const MIN_FREE_SIZE := 5
  const NULL := 0

  // PACK(8*n, alloc), GET_SIZE and GET_ALLOC, with the size in words.
  function Pack(n: int, alloc: int): int { 8 * n + alloc }
  function SizeOf(w: int): int { w / 8 }
  function AllocOf(w: int): int { w % 2 }

  // PROLOGUE_FL and EPILOGUE_FL; k is the list number minus MIN_FREE_SIZE.
  function Pro(lo: int, k: int): int { lo + 3 * k }
  function Epi(lo: int, k: int): int { lo + 3 * k + 2 }

  // The bookkeeping the words of the heap encode.
  //   sz     block pointer -> size in words, for every block of the heap
  //   live   allocated blocks
  //   last   LAST_FREE_BP
  //   lists  the eight free lists, front first
  //   out    blocks an operation is holding: neither allocated nor indexed, and
  //          with no promise about their tags
  //   tiny   indexed blocks of three words, whose next link overwrites their footer;
  //          a healthy heap has none
  datatype Layout = Layout(lo: int, brk: int, sz: map<int, int>, live: set<int>,
                           last: int, lists: seq<seq<int>>, out: set<int>, tiny: set<int>)

  // Pointer of the first block after the prologue block.
  function First(h: Layout): int { h.lo + 27 }

  // The list that compute_free_list_index chooses, minus MIN_FREE_SIZE.
  function ClassOf(n: int): (k: int)
    ensures 0 <= k < 8
  {
    if n < 8 then 0 else if n < 16 then 1 else if n < 32 then 2 else if n < 64 then 3
    else if n < 128 then 4 else if n < 256 then 5 else if n < 512 then 6 else 7
  }

  // ---------------------------------------------------------------- invariant

  ghost predicate Succ(h: Layout, p: int)
    requires p in h.sz
  {
    p + h.sz[p] == h.brk || p + h.sz[p] in h.sz
  }

  ghost predicate Bounded(h: Layout)
  {
    && 2 <= h.lo && First(h) <= h.brk
    && (First(h) == h.brk || First(h) in h.sz)
    && forall p | p in h.sz :: First(h) <= p && 3 <= h.sz[p] && p + h.sz[p] <= h.brk
  }

  ghost predicate Ordered(sz: map<int, int>)
  {
    forall p, q {:trigger sz[p], sz[q]} | p in sz && q in sz && p < q :: p + sz[p] <= q
  }

  // Blocks tile the words between the prologue block and the epilogue header.
  ghost predicate Tiled(h: Layout)
  {
    && Bounded(h) && Ordered(h.sz)
    && (forall p {:trigger Succ(h, p)} | p in h.sz :: Succ(h, p))
  }

  ghost predicate Tagged(m: seq<int>, p: int, n: int, alloc: int)
  {
    && 0 <= p - 1 < |m| && 0 <= p + n - 2 < |m|
    && m[p-1] == Pack(n, alloc) && m[p+n-2] == Pack(n, alloc)
  }

  ghost predicate TagsAt(m: seq<int>, h: Layout, p: int)
    requires p in h.sz
  {
    if p in h.tiny then 0 <= p - 1 < |m| && m[p-1] == Pack(h.sz[p], 0)
    else Tagged(m, p, h.sz[p], if p in h.live then 1 else 0)
  }

  // Header equals footer, for every block that is neither held nor tiny.
  ghost predicate Tags(m: seq<int>, h: Layout)
  {
    && 1 <= h.brk <= |m|
    && Tagged(m, h.lo + 25, 2, 1)
    && m[h.brk-1] == Pack(0, 1)
    && (forall p | p in h.sz && p !in h.out :: TagsAt(m, h, p))
  }

  ghost predicate ListedAt(h: Layout, p: int, k: int)
  {
    && p in h.sz && p !in h.live && p !in h.out && p != h.last
    && (4 <= h.sz[p] || p in h.tiny) && p + h.sz[p] < h.brk && ClassOf(h.sz[p]) == k
  }

  // A free block that the lists do not hold is the last block of the heap.
  ghost predicate LastOk(h: Layout)
  {
    h.last != NULL ==> h.last in h.sz && h.last !in h.live && h.last !in h.out && h.last + h.sz[h.last] == h.brk
  }

  ghost predicate Parted(h: Layout)
  {
    && h.live <= h.sz.Keys && h.out <= h.sz.Keys && h.live !! h.out
    && (forall p | p in h.tiny :: p in h.sz && h.sz[p] == 3 && p !in h.live && p !in h.out && p != h.last)
  }

  ghost predicate Listed(h: Layout)
  {
    && |h.lists| == NUM_FL
    && (forall k, i | 0 <= k < NUM_FL && 0 <= i < |h.lists[k]| :: ListedAt(h, h.lists[k][i], k))
    && (forall k, i, j | 0 <= k < NUM_FL && 0 <= i < j < |h.lists[k]| :: h.lists[k][i] != h.lists[k][j])
  }

  // Every block is allocated, held, the last free block, or in the list of its size.
  ghost predicate Indexed(h: Layout)
  {
    && LastOk(h) && Parted(h) && Listed(h)
    && forall p | p in h.sz :: p in h.live || p in h.out || p == h.last || p in h.lists[ClassOf(h.sz[p])]
  }

  // A list with its two sentinels.
  function Chain(h: Layout, k: int): seq<int>
    requires 0 <= k < |h.lists|
  {
    [Pro(h.lo, k)] + h.lists[k] + [Epi(h.lo, k)]
  }

  // Consecutive nodes point at each other.
  ghost predicate Linked(m: seq<int>, c: seq<int>)
  {
    && (forall i | 0 <= i < |c| :: 0 <= c[i] < |m| - 1)
    && (forall i | 0 <= i < |c| - 1 :: m[c[i]+1] == 8 * c[i+1] && m[c[i+1]] == 8 * c[i])
  }

  ghost predicate Chains(m: seq<int>, h: Layout)
    requires |h.lists| == NUM_FL
  {
    forall k | 0 <= k < NUM_FL :: Linked(m, Chain(h, k))
  }

  ghost predicate WF(m: seq<int>, h: Layout)
  {
    Tiled(h) && Indexed(h) && Tags(m, h) && Chains(m, h)
  }

  // The words of block p, header to footer, agree in m and m'.
  ghost predicate SameBlock(m: seq<int>, m': seq<int>, p: int, n: int)
  {
    && |m| == |m'| && 0 <= p - 1 && p + n - 1 <= |m|
    && forall i | p - 1 <= i < p + n - 1 :: m'[i] == m[i]
  }

  ghost predicate SameBlocks(m: seq<int>, m': seq<int>, s: set<int>, sz: map<int, int>)
  {
    forall p | p in s && p in sz :: SameBlock(m, m', p, sz[p])
  }

  lemma SameTiled(h: Layout, h': Layout)
    requires Tiled(h) && h'.lo == h.lo && h'.brk == h.brk && h'.sz == h.sz
    ensures Tiled(h')
  {
    forall q | q in h'.sz ensures Succ(h', q) { assert Succ(h, q); }
  }

  // ------------------------------------------------- writing in a held block

  ghost predicate OnlyInside(m: seq<int>, m': seq<int>, p: int, n: int)
  {
    |m'| == |m| && forall i | 0 <= i < |m| && !(p - 1 <= i < p + n - 1) :: m'[i] == m[i]
  }

  // Whatever is written between the header and the footer of a held block, the
  // heap stays well formed and no other block notices.
  lemma WriteHeld(m: seq<int>, m': seq<int>, h: Layout, p: int)
    requires WF(m, h) && p in h.out && OnlyInside(m, m', p, h.sz[p])
    ensures WF(m', h)
    ensures SameBlocks(m, m', h.sz.Keys - {p}, h.sz)
  {
    HeldTags(m, m', h, p);
    HeldChains(m, m', h, p);
  }

  lemma HeldTags(m: seq<int>, m': seq<int>, h: Layout, p: int)
    requires Tiled(h) && Parted(h) && Tags(m, h) && p in h.out && OnlyInside(m, m', p, h.sz[p])
    ensures Tags(m', h)
    ensures SameBlocks(m, m', h.sz.Keys - {p}, h.sz)
  {
    forall q | q in h.sz && q != p
      ensures SameBlock(m, m', q, h.sz[q])
    {
      assert h.sz[p] + h.sz[q] > 0;
    }
    forall q | q in h.sz && q !in h.out
      ensures TagsAt(m', h, q)
    {
      assert TagsAt(m, h, q);
      assert SameBlock(m, m', q, h.sz[q]);
    }
  }

  lemma HeldChains(m: seq<int>, m': seq<int>, h: Layout, p: int)
    requires Tiled(h) && Indexed(h) && Chains(m, h) && p in h.out && OnlyInside(m, m', p, h.sz[p])
    ensures Chains(m', h)
  {
    forall k | 0 <= k < NUM_FL
      ensures Linked(m', Chain(h, k))
    {
      var c := Chain(h, k);
      assert Linked(m, c);
      forall j | 0 <= j < |c|
        ensures m'[c[j]] == m[c[j]] && (j < |c| - 1 ==> m'[c[j] + 1] == m[c[j] + 1])
      {
        if 0 < j < |c| - 1 {
          var q := h.lists[k][j-1];
          assert ListedAt(h, q, k);
          assert h.sz[p] + h.sz[q] > 0;
        }
      }
    }
  }
}
