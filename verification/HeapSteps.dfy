// What each stretch of code of malloclab-handout/mm.c does to the words of the heap
// and to the blocks and lists they encode, as lemmas on values.
module HeapSteps {
  import opened HeapLayout
  import opened FreeLists
  import opened Blocks

  function Min(a: int, b: int): int { if a < b then a else b }

  // place: the words left free in front of the block it allocates.
  function Offset(n: int, size: int, withOffset: bool): int
  {
    if withOffset && Min(n - size, size) > 4 then Min(n - size, size) else 0
  }

  // place: the size of the block it allocates.
  function Taken(n: int, size: int, offset: int): int
  {
    if n - size - offset < 4 then n - offset else size
  }

  // The block at p of n words after place put a request of size words in it.
  function Placed(sz: map<int, int>, p: int, n: int, size: int, withOffset: bool): map<int, int>
  {
    var off := Offset(n, size, withOffset);
    var t := Taken(n, size, off);
    var front := if off > 0 then sz[p := off] else sz;
    var mid := front[p + off := t];
    if off + t < n then mid[p + off + t := n - off - t] else mid
  }

  // The list without p.
  function Without(l: seq<int>, p: int): seq<int>
  {
    if l == [] then [] else if l[0] == p then l[1..] else [l[0]] + Without(l[1..], p)
  }

  lemma {:induction false} WithoutAt(l: seq<int>, i: int)
    requires 0 <= i < |l| && forall a, b | 0 <= a < b < |l| :: l[a] != l[b]
    ensures Without(l, l[i]) == l[..i] + l[i+1..]
  {
    if i > 0 {
      var t := l[1..];
      assert l[0] != l[i] && t[i-1] == l[i];
      WithoutAt(t, i - 1);
      assert t[..i-1] == l[1..i] && t[i..] == l[i+1..];
      assert l[..i] == [l[0]] + l[1..i];
    }
  }

  // The index after remove_from_free_list.
  function Unindexed(h: Layout, p: int): Layout
    requires p in h.sz && (p == h.last || |h.lists| == NUM_FL)
  {
    if p == h.last then h.(last := NULL, out := h.out + {p})
    else
      var k := ClassOf(h.sz[p]);
      h.(lists := h.lists[k := Without(h.lists[k], p)], out := h.out + {p}, tiny := h.tiny - {p})
  }

  // Facts every step starts from.
  lemma FreeFacts(m: seq<int>, h: Layout, p: int)
    requires WF(m, h)
    ensures |h.lists| == NUM_FL && First(h) <= h.brk <= |m| && 2 <= h.lo
    ensures p in h.sz ==> 0 < p
    ensures SameInners(m, m, h.sz) && SameBlocks(m, m, h.live + (h.out + {p}), h.sz)
  {
  }

  // A free block that no operation holds is the last free block or an entry of the
  // list of its size.
  lemma FindEntry(m: seq<int>, h: Layout, p: int) returns (i: int)
    requires WF(m, h) && p in h.sz && p !in h.live && p !in h.out && p != h.last
    ensures var k := ClassOf(h.sz[p]);
      |h.lists| == NUM_FL && 0 <= i < |h.lists[k]| && h.lists[k][i] == p && Removed(h, k, i) == Unindexed(h, p)
  {
    var k := ClassOf(h.sz[p]);
    i :| 0 <= i < |h.lists[k]| && h.lists[k][i] == p;
    WithoutAt(h.lists[k], i);
  }

  // One step of remove_from_free_list: what it reads and what its writes achieve.
  lemma RemoveStep(m: seq<int>, h: Layout, p: int) returns (prev: int, next: int)
    requires WF(m, h) && p in h.sz && p !in h.live && p !in h.out
    ensures p == h.last || |h.lists| == NUM_FL
    ensures var h' := Unindexed(h, p);
      if p == h.last then
        WF(m, h') && p != NULL && SameInners(m, m, h.sz) && SameBlocks(m, m, h'.live + h'.out, h'.sz)
      else
        && 0 <= p && p + 1 < |m| && m[p] == 8 * prev && m[p+1] == 8 * next
        && 0 <= prev && prev + 1 < |m| && 0 <= next < |m|
        && var m' := Unlink(m, prev, next);
           WF(m', h') && SameInners(m, m', h'.sz) && SameBlocks(m, m', h'.live + h'.out, h'.sz)
  {
    hide WF, SameInners, SameBlocks, Unlink;
    FreeFacts(m, h, p);
    if p == h.last {
      DropLastWF(m, h);
      prev, next := 0, 0;
    } else {
      var k := ClassOf(h.sz[p]);
      var i := FindEntry(m, h, p);
      prev, next := Chain(h, k)[i], Chain(h, k)[i+2];
      UnlinkWF(m, h, k, i);
    }
  }

  // The index after add_to_free_list.
  function Added(h: Layout, p: int): Layout
    requires p in h.sz && (p + h.sz[p] == h.brk || |h.lists| == NUM_FL)
  {
    if p + h.sz[p] == h.brk then h.(last := p, out := h.out - {p})
    else Pushed(h, ClassOf(h.sz[p]), p)
  }

  lemma AddStep(m: seq<int>, h: Layout, p: int) returns (next: int)
    requires WF(m, h) && p in h.out && Tagged(m, p, h.sz[p], 0)
    requires p + h.sz[p] == h.brk ==> h.last == NULL
    ensures p in h.sz && 3 <= h.sz[p] && 0 < p <= |m| && |h.lists| == NUM_FL
    ensures var h' := Added(h, p);
      if p + h.sz[p] == h.brk then
        WF(m, h') && SameInners(m, m, h.sz) && SameBlocks(m, m, h'.live + h'.out, h'.sz)
      else
        var pro := Pro(h.lo, ClassOf(h.sz[p]));
        && 0 <= p && p + 1 < |m| && 0 <= pro && pro + 1 < |m| && m[pro+1] == 8 * next && 0 <= next < |m|
        && var m' := LinkIn(m, pro, next, p);
           WF(m', h') && SameInners(m, m', h'.sz) && SameBlocks(m, m', h'.live + h'.out, h'.sz)
  {
    if p + h.sz[p] == h.brk {
      SetLastWF(m, h, p);
      next := 0;
    } else {
      next := Chain(h, ClassOf(h.sz[p]))[1];
      LinkInWF(m, h, p);
    }
  }

  // ------------------------------------------------------------- extend_heap

  // The last free block and the new words together, or the new words alone.
  function NewBlock(h: Layout): int { if h.last == NULL then h.brk else h.last }

  predicate Extendable(h: Layout) { h.last != NULL ==> h.last in h.sz }

  function NewSize(h: Layout, k: int): int
    requires Extendable(h)
  {
    if h.last == NULL then k else h.sz[h.last] + k
  }

  function Extended(h: Layout, k: int): Layout
    requires Extendable(h)
  {
    h.(sz := h.sz[NewBlock(h) := NewSize(h, k)], brk := h.brk + k, last := NewBlock(h))
  }

  // The same before add_to_free_list.
  function Grown(h: Layout, k: int): Layout
    requires Extendable(h)
  {
    Extended(h, k).(last := NULL, out := h.out + {NewBlock(h)})
  }

  function GrownWords(m: seq<int>, p: int, n: int): seq<int>
    requires 0 < p && 0 < n && p + n <= |m| && 2 <= p + n
  {
    m[p - 1 := Pack(n, 0)][p + n - 2 := Pack(n, 0)][p + n - 1 := Pack(0, 1)]
  }

  lemma GrowStep(m: seq<int>, h: Layout, k: int)
    requires WF(m, h) && 3 <= k && h.brk + k <= |m|
    ensures h.last != NULL ==> h.last in h.sz && Tagged(m, h.last, h.sz[h.last], 0)
    ensures var p, n := NewBlock(h), NewSize(h, k);
      && 0 < p && 3 <= n && p + n == h.brk + k && p !in h.out
      && var m' := GrownWords(m, p, n);
         && WF(m', Grown(h, k)) && Tagged(m', p, n, 0)
         && SameBlocks(m, m', h.live, h.sz)
         && forall i | 0 <= i < h.brk - 1 && i != h.last - 1 :: m'[i] == m[i]
  {
    hide WF, SameBlocks;
    if h.last == NULL {
      GrowFresh(m, h, k);
    } else {
      GrowLast(m, h, k);
    }
  }

  lemma GrowFresh(m: seq<int>, h: Layout, k: int)
    requires WF(m, h) && 3 <= k && h.brk + k <= |m| && h.last == NULL
    ensures 0 < h.brk && h.brk !in h.out
    ensures var m' := GrownWords(m, h.brk, k);
      && WF(m', Grown(h, k)) && Tagged(m', h.brk, k, 0)
      && SameBlocks(m, m', h.live, h.sz)
      && forall i | 0 <= i < h.brk - 1 :: m'[i] == m[i]
  {
    assert 0 < h.brk && h.brk !in h.sz && h.live <= h.sz.Keys && h.out <= h.sz.Keys;
    hide WF;
    var m' := GrownWords(m, h.brk, k);
    AppendWF(m, m', h, k);
    assert Append(h, k) == Grown(h, k);
  }

  lemma LastFacts(m: seq<int>, h: Layout)
    requires WF(m, h) && h.last != NULL
    ensures h.last in h.sz && 2 <= h.last && 3 <= h.sz[h.last] && h.last + h.sz[h.last] == h.brk
    ensures Tagged(m, h.last, h.sz[h.last], 0) && h.last !in h.out && h.last !in h.live
    ensures h.brk !in h.sz && h.brk !in h.out && h.brk <= |m| && h.live <= h.sz.Keys && h.last !in h.tiny
  {
    assert TagsAt(m, h, h.last);
  }

  lemma GrowLast(m: seq<int>, h: Layout, k: int)
    requires WF(m, h) && 3 <= k && h.brk + k <= |m| && h.last != NULL
    ensures h.last in h.sz && 3 <= h.sz[h.last] && 0 < h.last && h.last + h.sz[h.last] == h.brk && h.last !in h.out
    ensures Tagged(m, h.last, h.sz[h.last], 0)
    ensures var p, n := h.last, h.sz[h.last] + k;
      var m' := GrownWords(m, p, n);
      && WF(m', Grown(h, k)) && Tagged(m', p, n, 0)
      && SameBlocks(m, m', h.live, h.sz)
      && forall i | 0 <= i < h.brk - 1 && i != h.last - 1 :: m'[i] == m[i]
  {
    hide WF;
    LastFacts(m, h);
    var p, n := h.last, h.sz[h.last] + k;
    var h1 := h.(last := NULL, out := h.out + {p});
    DropLastWF(m, h);
    var m1 := m[p - 1 := Pack(n, 0)];
    WriteHeld(m, m1, h1, p);
    var m' := GrownWords(m, p, n);
    AppendWF(m1, m', h1, k);
    var h2 := Append(h1, k);
    AbsorbWF(m', h2, p);
    assert Absorb(h2, p).sz == Grown(h, k).sz;
    assert Absorb(h2, p).out == Grown(h, k).out;
    assert Absorb(h2, p) == Grown(h, k);
    SameBlocksJoin(m, m1, m', h.sz.Keys - {p}, h.sz.Keys, h.live, h.sz);
  }

  lemma SameBlocksJoin(a: seq<int>, b: seq<int>, c: seq<int>, s: set<int>, t: set<int>, u: set<int>, sz: map<int, int>)
    requires SameBlocks(a, b, s, sz) && SameBlocks(b, c, t, sz) && u <= s && u <= t
    ensures SameBlocks(a, c, u, sz)
  {
    SameBlocksTrans(a, b, c, u, sz);
  }

  // ---------------------------------------------------------------- find_fit

  lemma LiveUnchanged(m: seq<int>, h: Layout)
    requires WF(m, h)
    ensures SameBlocks(m, m, h.live, h.sz)
  {
  }

  lemma LastTagged(m: seq<int>, h: Layout)
    requires WF(m, h)
    ensures Extendable(h)
    ensures h.last != NULL ==> 1 <= h.last <= |m| && m[h.last-1] == Pack(h.sz[h.last], 0) && 3 <= h.sz[h.last]
  {
    if h.last != NULL { LastFacts(m, h); }
  }

  // Following the next link of node i of list k.
  lemma NextNode(m: seq<int>, h: Layout, k: int, i: int)
    requires WF(m, h) && 0 <= k < NUM_FL && 0 <= i <= |h.lists[k]|
    ensures var c := Chain(h, k);
      0 <= c[i] && c[i] + 1 < |m| && m[c[i]+1] == 8 * c[i+1]
  {
    assert Linked(m, Chain(h, k));
    assert m[Chain(h, k)[i]+1] == 8 * Chain(h, k)[i+1];
  }

  lemma ListedTagged(m: seq<int>, h: Layout, k: int, i: int)
    requires WF(m, h) && 0 <= k < NUM_FL && 0 <= i <= |h.lists[k]| && Chain(h, k)[i+1] != Epi(h.lo, k)
    ensures i < |h.lists[k]|
    ensures var p := h.lists[k][i];
      p in h.sz && p == Chain(h, k)[i+1] && 1 <= p < |m| && m[p-1] == Pack(h.sz[p], 0)
  {
    var p := h.lists[k][i];
    assert ListedAt(h, p, k);
    assert TagsAt(m, h, p);
  }

  lemma EndOfList(m: seq<int>, h: Layout, k: int, i: int)
    requires WF(m, h) && 0 <= k < NUM_FL && 0 <= i <= |h.lists[k]| && Chain(h, k)[i+1] == Epi(h.lo, k)
    ensures i == |h.lists[k]|
  {
    if i < |h.lists[k]| { NodePlace(h, k, i + 1); }
  }

  // ------------------------------------------------------------------- place

  function Tag(m: seq<int>, p: int, n: int, alloc: int): seq<int>
    requires 1 <= p && 2 <= n && p + n - 1 <= |m|
  {
    m[p - 1 := Pack(n, alloc)][p + n - 2 := Pack(n, alloc)]
  }

  // Block p of h, held, becomes a block of k words and a rest; the first gets tags.
  lemma FrontStep(m: seq<int>, h: Layout, p: int, k: int, alloc: int)
    requires WF(m, h) && p in h.out && 3 <= k && 3 <= h.sz[p] - k
    ensures 1 <= p && p + h.sz[p] - 1 <= |m| && p + k != h.brk && p + k !in h.sz
    ensures p != h.last && p + k in SplitAt(h, p, k).out && p + k in SplitAt(h, p, k).sz
    ensures var m', h' := Tag(m, p, k, alloc), SplitAt(h, p, k);
      && WF(m', h') && Tagged(m', p, k, alloc)
      && SameBlocks(m, m', h.live + (h.out - {p}), h.sz)
      && forall i | p <= i < p + k - 2 || p + k - 1 <= i < p + h.sz[p] - 1 :: m'[i] == m[i]
  {
    HeldFacts(m, h, p);
    hide WF;
    SplitWF(m, h, p, k);
    var m' := Tag(m, p, k, alloc);
    WriteHeld(m, m', SplitAt(h, p, k), p);
    SameBlocksSplit(m, m', h, p, k);
  }

  lemma SameBlocksSplit(m: seq<int>, m': seq<int>, h: Layout, p: int, k: int)
    requires p in h.sz && SameBlocks(m, m', SplitAt(h, p, k).sz.Keys - {p}, SplitAt(h, p, k).sz)
    requires p + k !in h.sz
    ensures SameBlocks(m, m', h.live + (h.out - {p}), h.sz) || p in h.live
  {
    var h' := SplitAt(h, p, k);
    forall q | q in h.sz && q != p ensures SameBlock(m, m', q, h.sz[q]) {
      assert q in h'.sz.Keys - {p} && h'.sz[q] == h.sz[q];
    }
  }

  lemma HeldFacts(m: seq<int>, h: Layout, p: int)
    requires WF(m, h) && p in h.out
    ensures p in h.sz && 3 <= h.sz[p] && 1 <= p && p + h.sz[p] - 1 <= |m| && p + h.sz[p] <= h.brk
    ensures p != h.last && p !in h.live && p !in h.tiny && |h.lists| == NUM_FL
  {
  }

  function Released(h: Layout, p: int): Layout { h.(out := h.out - {p}, live := h.live + {p}) }

  // A held block gets the tags of an allocated one.
  lemma ReleaseStep(m: seq<int>, h: Layout, p: int)
    requires WF(m, h) && p in h.out
    ensures 1 <= p && 3 <= h.sz[p] && p + h.sz[p] - 1 <= |m|
    ensures var m' := Tag(m, p, h.sz[p], 1);
      && WF(m', Released(h, p))
      && SameBlocks(m, m', h.live + (h.out - {p}), h.sz)
      && forall i | p <= i < p + h.sz[p] - 2 :: m'[i] == m[i]
  {
    HeldFacts(m, h, p);
    SetsOf(m, h);
    hide WF;
    var m' := Tag(m, p, h.sz[p], 1);
    WriteHeld(m, m', h, p);
    ReleaseWF(m', h, p);
    SameBlocksLess(m, m', h.sz.Keys - {p}, h.live + (h.out - {p}), h.sz);
  }

  lemma SameBlocksRefl(m: seq<int>, h: Layout, s: set<int>)
    requires WF(m, h)
    ensures SameBlocks(m, m, s, h.sz)
  {
  }

  lemma SameBlocksLess(a: seq<int>, b: seq<int>, s: set<int>, u: set<int>, sz: map<int, int>)
    requires SameBlocks(a, b, s, sz) && u <= s
    ensures SameBlocks(a, b, u, sz)
  {
  }

  lemma SetsOf(m: seq<int>, h: Layout)
    requires WF(m, h)
    ensures h.live <= h.sz.Keys && h.out <= h.sz.Keys && h.live !! h.out
  {
  }

  // Both halves of a held block get tags.
  lemma SplitStep(m: seq<int>, h: Layout, p: int, k: int)
    requires WF(m, h) && p in h.out && 3 <= k && 3 <= h.sz[p] - k
    ensures 1 <= p && p + h.sz[p] - 1 <= |m| && p + k !in h.sz && p + k in SplitAt(h, p, k).out
    ensures var m', h' := Tag(Tag(m, p, k, 1), p + k, h.sz[p] - k, 0), SplitAt(h, p, k);
      && WF(m', h') && Tagged(m', p, k, 1) && Tagged(m', p + k, h.sz[p] - k, 0)
      && SameBlocks(m, m', h.live + (h.out - {p}), h.sz)
      && forall i | p <= i < p + k - 2 :: m'[i] == m[i]
  {
    FrontStep(m, h, p, k, 1);
    SetsOf(m, h);
    hide WF, SameBlocks;
    var m1, h' := Tag(m, p, k, 1), SplitAt(h, p, k);
    var m' := Tag(m1, p + k, h.sz[p] - k, 0);
    WriteHeld(m1, m', h', p + k);
    assert forall q | q in h.live + (h.out - {p}) && q in h.sz :: q in h'.sz.Keys - {p + k} && h'.sz[q] == h.sz[q];
    FrameJoin(m, m1, m', h.live + (h.out - {p}), h.sz, h'.sz.Keys - {p + k}, h'.sz);
  }

  // Blocks of s keep their words from a to b to c even if the map of blocks changes.
  lemma FrameJoin(a: seq<int>, b: seq<int>, c: seq<int>, s: set<int>, sz: map<int, int>, s': set<int>,
          sz': map<int, int>)
    requires SameBlocks(a, b, s, sz) && SameBlocks(b, c, s', sz')
    requires forall q | q in s && q in sz :: q in s' && q in sz' && sz'[q] == sz[q]
    ensures SameBlocks(a, c, s, sz)
  {
    forall q | q in s && q in sz ensures SameBlock(a, c, q, sz[q]) {
      assert SameBlock(a, b, q, sz[q]) && SameBlock(b, c, q, sz'[q]);
    }
  }

  // The layouts place goes through: a free block in front, then the allocated block
  // and perhaps a free remainder.
  function WithFront(h: Layout, p: int, k: int): Layout
    requires p in h.sz && |h.lists| == NUM_FL
  {
    Added(SplitAt(h, p, k), p)
  }

  function WithTail(h: Layout, p: int, k: int): Layout
    requires p in h.sz && |h.lists| == NUM_FL
  {
    if k == h.sz[p] then Released(h, p) else Released(Added(SplitAt(h, p, k), p + k), p)
  }

  lemma WithFrontSets(h: Layout, p: int, k: int)
    requires p in h.out && p in h.sz && |h.lists| == NUM_FL && p !in h.live && 3 < k < h.sz[p] && p + k !in h.sz
    requires h.out <= h.sz.Keys
    ensures var h' := WithFront(h, p, k);
      && h'.out == h.out - {p} + {p + k} && h'.live == h.live && h'.tiny == h.tiny && h'.brk == h.brk && h'.lo == h.lo
      && h'.sz == h.sz[p := k][p + k := h.sz[p] - k]
      &&
       forall q | q in h.live + (h.out - {p}) && q in h.sz :: q in h'.live + h'.out && q in h'.sz && h'.sz[q] == h.sz[q]
  {
    assert h.out + {p + k} - {p} == h.out - {p} + {p + k};
  }

  lemma WithTailSets(h: Layout, p: int, k: int)
    requires p in h.out && p in h.sz && |h.lists| == NUM_FL && p !in h.live && 0 < k
    requires k == h.sz[p] || (k + 4 <= h.sz[p] && p + k !in h.sz)
    requires h.out <= h.sz.Keys && h.live <= h.sz.Keys
    ensures var h' := WithTail(h, p, k);
      && h'.out == h.out - {p} && h'.live == h.live + {p} && h'.tiny == h.tiny && h'.brk == h.brk && h'.lo == h.lo
      && h'.sz == (if k == h.sz[p] then h.sz else h.sz[p := k][p + k := h.sz[p] - k])
      &&
       forall q | q in h.live + (h.out - {p}) && q in h.sz :: q in h'.live + h'.out && q in h'.sz && h'.sz[q] == h.sz[q]
  {
    if k != h.sz[p] {
      assert p + k !in h.out && p + k !in h.live;
      assert h.out + {p + k} - {p + k} == h.out;
    }
  }

  // The two steps of place together.
  lemma PlacedIs(sz: map<int, int>, sz1: map<int, int>, sz2: map<int, int>, p: int, n: int, size: int, withOffset: bool)
    requires p in sz && sz[p] == n && 3 <= size <= n
    requires var off := Offset(n, size, withOffset);
      && sz1 == (if off > 0 then sz[p := off][p + off := n - off] else sz)
      && var k := Taken(n - off, size, 0);
         sz2 == (if k == n - off then sz1 else sz1[p + off := k][p + off + k := n - off - k])
    ensures sz2 == Placed(sz, p, n, size, withOffset)
  {
  }

  lemma FrontFacts(m: seq<int>, h: Layout, p: int, k: int)
    requires WF(m, h) && p in h.out
    ensures |h.lists| == NUM_FL && h.out <= h.sz.Keys && p !in h.live && p in h.sz
  {
  }

  lemma InnerHeader(m: seq<int>, m': seq<int>, sz: map<int, int>, p: int)
    requires SameInners(m, m', sz) && p in sz
    ensures 1 <= p <= |m| && |m| == |m'| && m'[p-1] == m[p-1]
  {
    assert SameInner(m, m', p, sz[p]);
  }

  lemma SameBlockIn(m: seq<int>, m': seq<int>, s: set<int>, sz: map<int, int>, p: int)
    requires SameBlocks(m, m', s, sz) && p in s && p in sz
    ensures SameBlock(m, m', p, sz[p])
  {
  }

  // A held block that ends the heap leaves no last free block.
  lemma LastApart(m: seq<int>, h: Layout, p: int)
    requires WF(m, h) && p in h.out
    ensures p in h.sz && (p + h.sz[p] == h.brk ==> h.last == NULL)
  {
    if h.last != NULL && p + h.sz[p] == h.brk {
      OnePredecessor(h, h.last, p);
    }
  }

  lemma EndIsLast(m: seq<int>, h: Layout, p: int)
    requires WF(m, h) && p in h.sz && p !in h.live && p !in h.out
    ensures p + h.sz[p] == h.brk ==> p == h.last
  {
    if p + h.sz[p] == h.brk && p != h.last { var i := FindEntry(m, h, p); }
  }

  // ---------------------------------------------------------------- coalesce

  // The one block that ends where p starts, found by walking up from c.
  lemma WalkTo(h: Layout, c: int, p: int) returns (q: int)
    requires Tiled(h) && c in h.sz && p in h.sz && c < p
    ensures q in h.sz && q + h.sz[q] == p
    ensures forall r | r in h.sz && r + h.sz[r] == p :: r == q
    decreases p - c
  {
    hide Tiled;
    forall q, r | q in h.sz && q + h.sz[q] == p && r in h.sz && r + h.sz[r] == p ensures q == r {
      OnePredecessor(h, q, r);
    }
    NextBlock(h, c);
    InOrder(h, c, p);
    if c + h.sz[c] == p {
      q := c;
    } else {
      q := WalkTo(h, c + h.sz[c], p);
    }
  }

  // What coalesce reads around the free block p.  q is the block before p, or NULL
  // when the prologue block is.
  lemma Neighbours(m: seq<int>, h: Layout, p: int) returns (q: int)
    requires WF(m, h) && h.out == {} && p in h.sz && p !in h.live && h.tiny <= {p}
    ensures var n := h.sz[p];
      && 3 <= n && 5 <= p && p + n <= |m| && SizeOf(m[p-1]) == n
      && AllocOf(m[p+n-1]) == (if p + n in h.sz && p + n !in h.live then 0 else 1)
      && (p + n in h.sz ==> 3 <= h.sz[p+n])
    ensures var x := if q == NULL then p - 2 else q;
      && 1 <= x < p && SizeOf(m[p-2]) == p - x && SizeOf(m[x-1]) == p - x
      && AllocOf(m[p-2]) == (if q == NULL || q in h.live then 1 else 0)
    ensures q != NULL ==> q in h.sz && q + h.sz[q] == p && q !in h.tiny
    ensures forall r | r in h.sz && r + h.sz[r] == p :: q != NULL && r == q
  {
    hide SizeOf, AllocOf, Pack;
    NextTag(m, h, p);
    q := NULL;
    if p == First(h) {
      Packed(2, 1);
      assert Tagged(m, h.lo + 25, 2, 1);
      forall r | r in h.sz ensures r + h.sz[r] != p { assert First(h) <= r; }
    } else {
      q := WalkTo(h, First(h), p);
      assert TagsAt(m, h, q);
      Packed(h.sz[q], if q in h.live then 1 else 0);
    }
  }

  lemma NextBlock(h: Layout, c: int)
    requires Tiled(h) && c in h.sz
    ensures 3 <= h.sz[c] && (c + h.sz[c] == h.brk || c + h.sz[c] in h.sz)
    ensures forall p | p in h.sz :: p < h.brk
  {
    assert Succ(h, c);
  }

  lemma NextTag(m: seq<int>, h: Layout, p: int)
    requires WF(m, h) && h.out == {} && p in h.sz && p !in h.live && h.tiny <= {p}
    ensures var n := h.sz[p];
      && 3 <= n && 5 <= p && p + n <= |m| && SizeOf(m[p-1]) == n
      && AllocOf(m[p+n-1]) == (if p + n in h.sz && p + n !in h.live then 0 else 1)
      && (p + n in h.sz ==> 3 <= h.sz[p+n])
    ensures First(h) in h.sz && First(h) <= p
  {
    hide SizeOf, AllocOf;
    var e := p + h.sz[p];
    TagWords(m, h, p);
    hide WF;
    Packed(h.sz[p], 0);
    Packed(0, 1);
    if e in h.sz {
      Packed(h.sz[e], if e in h.live then 1 else 0);
    }
  }

  lemma TagWords(m: seq<int>, h: Layout, p: int)
    requires WF(m, h) && h.out == {} && p in h.sz && p !in h.live && h.tiny <= {p}
    ensures var n := h.sz[p];
      && 3 <= n && 5 <= p && p + n <= |m| && m[p-1] == Pack(n, 0)
      && (if p + n in h.sz then 3 <= h.sz[p+n] && m[p+n-1] == Pack(h.sz[p+n], if p + n in h.live then 1 else 0)
          else m[p+n-1] == Pack(0, 1))
    ensures First(h) in h.sz && First(h) <= p
  {
    var e := p + h.sz[p];
    assert TagsAt(m, h, p) && Succ(h, p);
    if e in h.sz {
      assert TagsAt(m, h, e);
    }
  }

  lemma Packed(n: int, alloc: int)
    requires 0 <= n && 0 <= alloc <= 1
    ensures SizeOf(Pack(n, alloc)) == n && AllocOf(Pack(n, alloc)) == alloc
  {
    hide SizeOf, AllocOf;
    PackedSize(n, alloc);
    PackedAlloc(n, alloc);
  }

  lemma PackedAlloc(n: int, alloc: int)
    requires 0 <= n && 0 <= alloc <= 1
    ensures AllocOf(Pack(n, alloc)) == alloc
  {
    assert Pack(n, alloc) == 2 * (4 * n) + alloc;
  }

  lemma PackedSize(n: int, alloc: int)
    requires 0 <= n && 0 <= alloc <= 1
    ensures SizeOf(Pack(n, alloc)) == n
  {
  }

  // The blocks between a and e become one.
  function Joined(sz: map<int, int>, a: int, e: int): map<int, int>
  {
    map q | q in sz && !(a < q < e) :: if q == a then e - a else sz[q]
  }

  lemma JoinedAt(sz: map<int, int>, a: int, e: int)
    requires a in sz
    ensures a in Joined(sz, a, e) && Joined(sz, a, e)[a] == e - a
  {
  }

  lemma JoinTwo(h: Layout, p: int)
    requires Tiled(h) && p in h.sz && p + h.sz[p] in h.sz
    ensures Absorb(h, p).sz == Joined(h.sz, p, p + h.sz[p] + h.sz[p + h.sz[p]])
  {
    var q := p + h.sz[p];
    var e := q + h.sz[q];
    forall r | r in h.sz && p < r < e ensures r == q {
      if r < q { NotInside(h, p, r); } else if r > q { NotInside(h, q, r); }
    }
  }

  lemma JoinedTwice(sz: map<int, int>, a: int, e: int, f: int)
    requires a in sz && e <= f
    ensures Joined(Joined(sz, a, e), a, f) == Joined(sz, a, f)
  {
  }

  // Block p and its successor q, both free and indexed.
  ghost predicate Mergeable(m: seq<int>, h: Layout, p: int, q: int)
  {
    && WF(m, h) && h.out == {} && p in h.sz && p !in h.live && q in h.sz && q !in h.live && q == p + h.sz[p]
    && h.tiny <= {p, q}
  }

  function End(h: Layout, p: int): int
    requires p in h.sz
  {
    p + h.sz[p]
  }

  // h' is h with the blocks from p up to e merged into one indexed free block.
  ghost predicate Merged(h: Layout, h': Layout, p: int, e: int)
  {
    && h'.sz == Joined(h.sz, p, e) && h'.live == h.live && h'.out == {} && h'.tiny == {} && h'.brk == h.brk &&
      h'.lo == h.lo
  }

  lemma MergeFacts(m: seq<int>, h: Layout, p: int)
    requires WF(m, h) && h.out == {} && p in h.sz && p !in h.live
    ensures 3 <= h.sz[p] && 1 <= p < |m| && m[p-1] == Pack(h.sz[p], 0) && p + h.sz[p] <= |m| && |h.lists| == NUM_FL
    ensures Tiled(h)
  {
    assert TagsAt(m, h, p);
  }

  lemma InnersTrans(a: seq<int>, b: seq<int>, c: seq<int>, sz: map<int, int>)
    requires SameInners(a, b, sz) && SameInners(b, c, sz)
    ensures SameInners(a, c, sz)
  {
    forall q | q in sz ensures SameInner(a, c, q, sz[q]) {
      assert SameInner(a, b, q, sz[q]) && SameInner(b, c, q, sz[q]);
    }
  }

  lemma InnerWords(m: seq<int>, m': seq<int>, sz: map<int, int>, p: int)
    requires SameInners(m, m', sz) && p in sz
    ensures 1 <= p <= |m| && |m| == |m'| && m'[p-1] == m[p-1] && p + sz[p] - 1 <= |m|
    ensures forall i | p + 2 <= i < p + sz[p] - 1 :: m'[i] == m[i]
  {
    assert SameInner(m, m', p, sz[p]);
  }

  lemma RetagStep(m: seq<int>, m': seq<int>, h: Layout, p: int)
    requires WF(m, h) && p in h.out && OnlyInside(m, m', p, if p in h.sz then h.sz[p] else 0)
    ensures WF(m', h) && SameBlocks(m, m', h.live + (h.out - {p}), h.sz)
    ensures p in h.sz
  {
    SetsOf(m, h);
    HeldFacts(m, h, p);
    hide WF;
    WriteHeld(m, m', h, p);
    SameBlocksLess(m, m', h.sz.Keys - {p}, h.live + (h.out - {p}), h.sz);
  }

  lemma NotTiny(m: seq<int>, h: Layout, p: int)
    requires WF(m, h)
    ensures p == h.last ==> h.tiny - {p} == h.tiny
  {
  }

  lemma MergeHeld(m: seq<int>, h: Layout, p: int)
    requires WF(m, h) && p in h.out && p in h.sz && p + h.sz[p] in h.out
    ensures var q := p + h.sz[p];
      && q in h.sz
      && WF(m, Absorb(h, p)) && Absorb(h, p).sz == Joined(h.sz, p, q + h.sz[q])
      && Absorb(h, p).live == h.live && Absorb(h, p).tiny == h.tiny && Absorb(h, p).out == h.out - {q}
      && Absorb(h, p).lo == h.lo && Absorb(h, p).brk == h.brk && Absorb(h, p).last == h.last
      && p in Absorb(h, p).sz && Absorb(h, p).sz[p] == h.sz[p] + h.sz[q] && p in Absorb(h, p).out
      && forall r | r in h.live :: r in Absorb(h, p).sz && r in h.sz && Absorb(h, p).sz[r] == h.sz[r]
  {
    SetsOf(m, h);
    HeldFacts(m, h, p);
    AbsorbWF(m, h, p);
    JoinTwo(h, p);
  }

  lemma FooterFacts(m: seq<int>, h: Layout, p: int)
    requires WF(m, h) && h.out == {} && p in h.sz && p !in h.live && p !in h.tiny && p + h.sz[p] in h.sz
    ensures 4 <= h.sz[p] && p + h.sz[p] - 2 < |m| && m[p + h.sz[p] - 2] == Pack(h.sz[p], 0)
  {
    assert TagsAt(m, h, p);
    assert h.sz[p + h.sz[p]] > 0;
    var i := FindEntry(m, h, p);
    assert ListedAt(h, h.lists[ClassOf(h.sz[p])][i], ClassOf(h.sz[p]));
  }

  lemma TiledOf(m: seq<int>, h: Layout)
    requires WF(m, h)
    ensures Tiled(h)
  {
  }

  // The first payload word of block p that mm_free leaves alone: it links every block
  // into a list but the one at the end of the heap.
  function FreedFrom(h: Layout, p: int): int
    requires p in h.sz
  {
    if End(h, p) == h.brk then p else p + 2
  }

  // h' is h after coalescing the indexed free block p: the free neighbours of p, and
  // no other block, have become one block r with it.
  ghost predicate Coalesced(h: Layout, h': Layout, p: int, r: int)
  {
    && p in h.sz && r in h'.sz && r <= p
    && (r == p || (r in h.sz && r !in h.live && r + h.sz[r] == p))
    && (r == p ==> forall q | q in h.sz && q + h.sz[q] == p :: q in h.live)
    && ToNext(h, p, r + h'.sz[r])
    && h'.sz == Joined(h.sz, r, r + h'.sz[r])
    && h'.tiny == (if r == p && h'.sz[r] == h.sz[p] then h.tiny else {})
    && h'.live == h.live && h'.out == h.out && h'.brk == h.brk && h'.lo == h.lo
  }

  // The merged block ends at e, which is past the block after p exactly when that
  // block is free.
  ghost predicate ToNext(h: Layout, p: int, e: int)
    requires p in h.sz
  {
    var e0 := p + h.sz[p];
    if e0 in h.sz && e0 !in h.live then e == e0 + h.sz[e0] else e == e0
  }

  lemma SplitsNothing(m: seq<int>, h: Layout, p: int)
    requires WF(m, h) && p in h.sz
    ensures Joined(h.sz, p, p + h.sz[p]) == h.sz
    ensures h.brk !in h.sz
  {
    forall q | q in h.sz && p < q ensures p + h.sz[p] <= q { InOrder(h, p, q); }
  }

  // ----------------------------------------------------------------- mm_init

  ghost predicate EmptyList(m: seq<int>, lo: int, k: int)
  {
    && 0 <= Pro(lo, k) && Epi(lo, k) < |m|
    && m[Pro(lo, k)] == NULL && m[Pro(lo, k)+1] == 8 * Epi(lo, k) && m[Epi(lo, k)] == 8 * Pro(lo, k)
  }

  lemma InitialWF(m: seq<int>, h: Layout)
    requires 2 <= h.lo && h.brk == h.lo + 27 <= |m|
    requires h == Layout(h.lo, h.brk, map[], {}, NULL, seq(NUM_FL, _ => []), {}, {})
    requires forall k | 0 <= k < NUM_FL :: EmptyList(m, h.lo, k)
    requires m[h.lo+24] == Pack(2, 1) && m[h.lo+25] == Pack(2, 1) && m[h.lo+26] == Pack(0, 1)
    ensures WF(m, h)
  {
    forall k | 0 <= k < NUM_FL ensures Linked(m, Chain(h, k)) {
      assert EmptyList(m, h.lo, k);
      assert Chain(h, k) == [Pro(h.lo, k), Epi(h.lo, k)];
    }
  }

  // ----------------------------------------------------------------- mm_free

  function Held(h: Layout, p: int): Layout { h.(out := h.out + {p}, live := h.live - {p}) }

  // The allocated block p goes into the index, before any coalescing.
  function Filed(h: Layout, p: int): Layout
    requires p in h.sz && |h.lists| == NUM_FL
  {
    Added(Held(h, p), p)
  }

  lemma FiledSets(h: Layout, p: int)
    requires p in h.sz && |h.lists| == NUM_FL && h.out == {}
    ensures var h' := Filed(h, p);
      && h'.sz == h.sz && h'.live == h.live - {p} && h'.out == {} && h'.brk == h.brk && h'.lo == h.lo
      && h'.tiny == if h.sz[p] == 3 && p + 3 != h.brk then h.tiny + {p} else h.tiny
  {
  }

  lemma LiveFacts(m: seq<int>, h: Layout, p: int)
    requires WF(m, h) && p in h.live
    ensures p in h.sz && 3 <= h.sz[p] && 1 <= p && p + h.sz[p] - 1 <= |m| && |h.lists| == NUM_FL
    ensures m[p-1] == Pack(h.sz[p], 1) && p != h.last && p !in h.tiny
    ensures p + h.sz[p] == h.brk || p + h.sz[p] in h.sz
    ensures h.brk !in h.sz && forall q | q in h.sz :: 3 <= h.sz[q]
  {
    assert TagsAt(m, h, p) && Succ(h, p);
  }

  // p is a block of three words between allocated neighbours and not at the end of
  // the heap: a request of at most 8 bytes leaves no room for both links and a footer.
  ghost predicate StrandsTiny(h: Layout, p: int)
    requires p in h.sz
  {
    && h.sz[p] == 3 && p + 3 in h.sz && p + 3 in h.live
    && forall q | q in h.sz && q + h.sz[q] == p :: q in h.live
  }

  lemma TinyAfterFree(h: Layout, h': Layout, p: int, r: int)
    requires p in h.sz && |h.lists| == NUM_FL && h.out == {} && h.tiny == {} && 3 <= h.sz[p]
    requires p + h.sz[p] == h.brk || p + h.sz[p] in h.sz
    requires h.brk !in h.sz
    requires forall q | q in h.sz :: 3 <= h.sz[q]
    requires Coalesced(Filed(h, p), h', p, r)
    ensures h'.tiny == {} <==> !StrandsTiny(h, p)
  {
    FiledSets(h, p);
    var f := Filed(h, p);
    assert forall q | q in h.sz && q + h.sz[q] == p :: q != p;
    if StrandsTiny(h, p) {
      assert r == p;
      assert p in h'.tiny;
    }
  }

  // ------------------------------------------------------ what the allocator writes

  // A value a tag or a link of a heap of n words can have.
  predicate IsMark(v: int, n: int) { 0 <= v <= 8 * n + 1 }

  // Every word that changed from m to m' became a tag or a link.
  ghost predicate Marks(m: seq<int>, m': seq<int>)
  {
    |m'| == |m| && forall i | 0 <= i < |m| :: m'[i] == m[i] || IsMark(m'[i], |m|)
  }

  lemma MarksRefl(m: seq<int>)
    ensures Marks(m, m)
  {
  }

  lemma GrownMarks(m: seq<int>, p: int, n: int)
    requires 0 < p && 0 < n && p + n <= |m| && 2 <= p + n
    ensures Marks(m, GrownWords(m, p, n))
  {
  }

  lemma MarkStays(m: seq<int>, m': seq<int>, i: int)
    requires Marks(m, m') && 0 <= i < |m| && IsMark(m[i], |m|)
    ensures |m'| == |m| && IsMark(m'[i], |m'|)
  {
  }

  lemma MarksTrans(a: seq<int>, b: seq<int>, c: seq<int>)
    requires Marks(a, b) && Marks(b, c)
    ensures Marks(a, c)
  {
  }
}
