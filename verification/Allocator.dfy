// The allocator of malloclab-handout/mm.c over the heap of HeapLayout.
module Allocator {
  import opened Arith
  import opened HeapLayout
  import opened FreeLists
  import opened Blocks
  import opened HeapSteps
  import opened SizeClasses
  import opened Policy
  import opened HeapSpec
  import opened HeapFacts
  import opened Requests

  const INT_RANGE := 0x1_0000_0000

  // The value an int parameter receives from a size_t argument.
  function AsInt(bytes: int): int
    requires 0 <= bytes < INT_RANGE
  {
    if bytes < 0x8000_0000 then bytes else bytes - INT_RANGE
  }

  // ALIGN(size + 2 * DSIZE), in words.
  function Aligned(bytes: int): int { (bytes + 16 + 7) / 8 }

  // The fewest words that hold the payload and its two tags.
  lemma AlignedIsLeast(bytes: int)
    ensures forall n :: 8 * n >= bytes + 16 <==> n >= Aligned(bytes)
  {
    Quotient(bytes + 23, 8);
  }

  class Heap {
    const lo: int
    const mem: array<int>
    var brk: int
    var lastFree: int
    ghost var h: Layout

    // The words of the heap and what they encode.
    ghost function Now(): State
      reads this, mem
    {
      State(mem[..], h)
    }

    // Well formed, with no operation in progress.
    ghost predicate Inv()
      reads this, mem
    {
      WF(mem[..], h) && Synced() && h.out == {}
    }

    ghost predicate Synced()
      reads this
    {
      h.lo == lo && h.brk == brk && h.last == lastFree
    }

    ghost predicate Valid()
      reads this, mem
    {
      Inv() && h.tiny == {}
    }

    // mem_sbrk (malloclab-handout/memlib.c:58-69) with the size_t argument that the
    // int parameter truncates; NULL stands for (void *)-1.
    method Sbrk(words: int) returns (old_brk: int)
      requires 0 <= words && 8 * words < INT_RANGE && brk <= mem.Length && 0 < brk
      modifies this`brk
      ensures old_brk == NULL <==> SbrkFails(words, old(brk))
      ensures old_brk == NULL ==> brk == old(brk)
      ensures old_brk != NULL ==> old_brk == old(brk) && brk == old(brk) + words && brk <= mem.Length
    {
      var incr := AsInt(8 * words);
      if incr < 0 || 8 * brk + incr > 8 * mem.Length {
        return NULL;
      }
      old_brk := brk;
      brk := brk + words;
    }

    ghost predicate SbrkFails(words: int, b: int)
    {
      Exhausted(words, b, mem.Length)
    }

    // PUT and PUT_FL.
    method Put(i: int, v: int)
      requires 0 <= i < mem.Length
      modifies mem
      ensures mem[..] == old(mem[..])[i := v]
    {
      mem[i] := v;
    }

    method PutFront(prologue: int, next: int, bp: int)
      requires 0 <= prologue && prologue + 1 < mem.Length && 0 <= next < mem.Length && 0 <= bp && bp + 1 < mem.Length
      modifies mem
      ensures mem[..] == LinkIn(old(mem[..]), prologue, next, bp) && IsMark(mem[bp], mem.Length)
      ensures Marks(old(mem[..]), mem[..])
    {
      Put(prologue + 1, 8 * bp);
      Put(next, 8 * bp);
      Put(bp, 8 * prologue);
      Put(bp + 1, 8 * next);
    }

    // The header and the footer, found through the header, of block p.
    method PutTags(p: int, n: int, alloc: int)
      requires 1 <= p && 2 <= n && p + n - 1 <= mem.Length && 0 <= alloc <= 1
      modifies mem
      ensures mem[..] == Tag(old(mem[..]), p, n, alloc)
      ensures Marks(old(mem[..]), mem[..])
    {
      Put(p - 1, Pack(n, alloc));
      Put(p + SizeOf(mem[p-1]) - 2, Pack(n, alloc));
    }

    // The tags of the new last block p and the epilogue header behind it.
    method PutGrown(p: int, n: int)
      requires 0 < p && 3 <= n && p + n <= mem.Length
      modifies mem
      ensures mem[..] == GrownWords(old(mem[..]), p, n)
    {
      Put(p - 1, Pack(n, 0));
      Put(p + SizeOf(mem[p-1]) - 2, Pack(n, 0));
      Put(p + SizeOf(mem[p-1]) - 1, Pack(0, 1));
    }

    method PutUnlinked(prev: int, next: int)
      requires 0 <= prev && prev + 1 < mem.Length && 0 <= next < mem.Length
      modifies mem
      ensures mem[..] == Unlink(old(mem[..]), prev, next)
      ensures Marks(old(mem[..]), mem[..])
    {
      Put(prev + 1, 8 * next);
      Put(next, 8 * prev);
    }

    method ComputeFreeListIndex(size: int) returns (n: int)
      requires 0 <= size
      ensures n == ClassOf(size) + MIN_FREE_SIZE
    {
      Pow2Values();
      n := MIN_FREE_SIZE + 1;
      while n < MIN_FREE_SIZE + NUM_FL
        invariant 6 <= n <= 13
        invariant n > 6 ==> 8 * size >= Pow2(n - 1)
      {
        ShiftedOut(8 * size, Pow2(n));
        if (8 * size) / Pow2(n) == 0 {
          ClassOfBounds(size);
          return n - 1;
        }
        n := n + 1;
      }
      return MIN_FREE_SIZE + NUM_FL - 1;
    }

    method AddToFreeList(bp: int, size: int)
      requires WF(mem[..], h) && h.lo == lo && h.brk == brk
      requires bp in h.out && size == h.sz[bp] && Tagged(mem[..], bp, size, 0)
      requires h.last == if bp + size == brk then NULL else lastFree
      modifies mem, this`lastFree, this`h
      ensures WF(mem[..], h) && Synced() && h == Added(old(h), bp) && Now() == AfterAdd(old(Now()), bp)
      ensures bp + size == brk ==> mem[..] == old(mem[..])
      ensures Marks(old(mem[..]), mem[..]) && (bp + size != brk ==> 0 <= bp < mem.Length && IsMark(mem[bp], mem.Length))
      ensures SameBlocks(old(mem[..]), mem[..], h.live + h.out, h.sz)
      ensures SameInners(old(mem[..]), mem[..], h.sz)
    {
      hide WF, SameInners, SameBlocks, LinkIn;
      ghost var next0 := AddStep(mem[..], h, bp);
      h := Added(h, bp);
      if bp + SizeOf(mem[bp-1]) == brk {
        lastFree := bp;
        return;
      }
      var n := ComputeFreeListIndex(size);
      var prologue := Pro(lo, n - MIN_FREE_SIZE);
      var next := mem[prologue+1] / 8;
      PutFront(prologue, next, bp);
    }

    method RemoveFromFreeList(bp: int)
      requires WF(mem[..], h) && Synced()
      requires bp in h.sz && bp !in h.live && bp !in h.out
      modifies mem, this`lastFree, this`h
      ensures WF(mem[..], h) && Synced() && h == Unindexed(old(h), bp) && Now() == AfterRemove(old(Now()), bp)
      ensures h.sz == old(h).sz && h.live == old(h).live && h.out == old(h).out + {bp} && h.brk == old(h).brk
      ensures h.tiny == old(h).tiny - {bp}
      ensures SameBlocks(old(mem[..]), mem[..], h.live, h.sz)
      ensures bp == old(lastFree) ==> mem[..] == old(mem[..])
      ensures Marks(old(mem[..]), mem[..])
      ensures SameBlocks(old(mem[..]), mem[..], h.live + h.out, h.sz)
      ensures SameInners(old(mem[..]), mem[..], h.sz)
    {
      hide WF, SameInners, SameBlocks, Unlink;
      FreeFacts(mem[..], h, bp);
      ghost var prev0, next0 := RemoveStep(mem[..], h, bp);
      NotTiny(mem[..], h, bp);
      h := Unindexed(h, bp);
      if bp == lastFree {
        lastFree := NULL;
      } else {
        var prev := mem[bp] / 8;
        var next := mem[bp+1] / 8;
        PutUnlinked(prev, next);
      }
      SameBlocksLess(old(mem[..]), mem[..], h.live + h.out, h.live, h.sz);
    }

    // extend_heap, on a size that is already a multiple of 8 bytes.
    method ExtendHeap(size: int) returns (bp: int)
      requires WF(mem[..], h) && Synced()
      requires 3 <= size && 8 * size < INT_RANGE
      modifies mem, this
      ensures WF(mem[..], h) && Synced()
      ensures bp == NULL <==> SbrkFails(size, old(brk))
      ensures bp == NULL ==> h == old(h) && mem[..] == old(mem[..])
      ensures lastFree != NULL ==> lastFree in h.sz
      ensures bp != NULL ==> Extendable(old(h)) && h == Extended(old(h), size) && bp == lastFree == NewBlock(old(h))
      ensures bp != NULL ==> Now() == AfterExtend(old(Now()), size)
      ensures bp != NULL ==> SameBlocks(old(mem[..]), mem[..], old(h).live, old(h).sz)
      ensures bp != NULL ==> forall i | 0 <= i < old(brk) - 1 && i != old(lastFree) - 1 :: mem[i] == old(mem[i])
      ensures Marks(old(mem[..]), mem[..])
    {
      hide WF, SameBlocks, SameInners, Marks, IsMark, AsInt, AfterAdd, GrownWords;
      ghost var m0 := mem[..];
      ghost var h0 := h;
      MarksRefl(m0);
      FreeFacts(m0, h, NULL);
      LastTagged(m0, h);
      var n := size;
      bp := Sbrk(n);
      if bp == NULL {
        return;
      }
      GrowStep(m0, h0, size);
      if lastFree != NULL {
        bp := lastFree;
        n := n + SizeOf(mem[bp-1]);
      }
      PutGrown(bp, n);
      GrownMarks(m0, bp, n);
      h := Grown(h0, size);
      AddToFreeList(bp, n);
      assert h.out == h0.out;
    }

    // find_fit.
    method FindFit(size: int) returns (r: int)
      requires Inv() && 3 <= size && 8 * RoundPage(size) < INT_RANGE
      modifies mem, this
      ensures Inv()
      ensures Extendable(old(h))
      ensures r == if Fit(old(h), size) != NULL then Fit(old(h), size)
                   else if SbrkFails(RoundPage(Need(old(h), size)), old(brk)) then NULL
                   else NewBlock(old(h))
      ensures r == Fit(old(h), size) || r == NULL ==> h == old(h) && mem[..] == old(mem[..])
      ensures r != Fit(old(h), size) && r != NULL ==> h == Extended(old(h), RoundPage(Need(old(h), size)))
      ensures r != NULL ==> Now() == AfterFit(old(Now()), size)
      ensures Served(old(h), old(brk), size, mem.Length, r != NULL, brk)
      ensures SameBlocks(old(mem[..]), mem[..], old(h).live, old(h).sz)
      ensures forall i | 0 <= i < old(brk) - 1 && i != old(lastFree) - 1 :: mem[i] == old(mem[i])
      ensures Marks(old(mem[..]), mem[..])
    {
      hide WF, SameBlocks, SameInners, FitFrom, Served, TooSmall;
      FitFacts(mem[..], h, size);
      MallocServed(mem[..], h, size, mem.Length);
      FreeFacts(mem[..], h, NULL);
      LastTagged(mem[..], h);
      LiveUnchanged(mem[..], h);
      r := SearchLists(size);
      if r != NULL {
        return;
      }
      var rest := size;
      if lastFree != NULL {
        var lastSize := SizeOf(mem[lastFree-1]);
        if lastSize >= size {
          return lastFree;
        }
        rest := rest - lastSize;
      }
      r := ExtendHeap(RoundPage(rest));
    }

    // The loops of find_fit over the lists.
    method SearchLists(size: int) returns (r: int)
      requires WF(mem[..], h) && Synced() && 0 <= size
      ensures r == FitFrom(h.lists, h.sz, size, ClassOf(size))
    {
      var n := ComputeFreeListIndex(size);
      while n < MIN_FREE_SIZE + NUM_FL
        invariant 5 <= n <= 13
        invariant FitFrom(h.lists, h.sz, size, ClassOf(size)) == FitFrom(h.lists, h.sz, size, n - 5)
      {
        hide WF, FitFrom;
        var k := n - MIN_FREE_SIZE;
        var epilogue := Epi(lo, k);
        NextNode(mem[..], h, k, 0);
        var bp := mem[Pro(lo, k)+1] / 8;
        ghost var i := 0;
        while bp != epilogue
          invariant 0 <= i <= |h.lists[k]| && bp == Chain(h, k)[i+1]
          invariant FitIn(h.lists[k], h.sz, size) == FitIn(h.lists[k][i..], h.sz, size)
          decreases |h.lists[k]| - i
        {
          ListedTagged(mem[..], h, k, i);
          if SizeOf(mem[bp-1]) >= size {
            FitFromHere(h.lists, h.sz, size, k);
            return bp;
          }
          NextNode(mem[..], h, k, i + 1);
          bp := mem[bp+1] / 8;
          i := i + 1;
        }
        EndOfList(mem[..], h, k, i);
        FitFromHere(h.lists, h.sz, size, k);
        n := n + 1;
      }
      return NULL;
    }

    // place: a request of size words in the held block bp.
    method Place(bp: int, size: int, withOffset: bool) returns (r: int)
      requires WF(mem[..], h) && Synced() && bp in h.out && 1 <= bp <= mem.Length && bp in h.sz
      requires SizeOf(mem[bp-1]) == h.sz[bp] && 3 <= size <= h.sz[bp]
      modifies mem, this`lastFree, this`h
      ensures WF(mem[..], h) && Synced()
      ensures r == bp + Offset(old(h).sz[bp], size, withOffset)
      ensures Now() == AfterPlace(old(Now()), bp, old(h).sz[bp], size, withOffset)
      ensures h.sz == Placed(old(h).sz, bp, old(h).sz[bp], size, withOffset)
      ensures h.live == old(h).live + {r} && h.out == old(h).out - {bp} && h.tiny == old(h).tiny && h.brk == old(h).brk
      ensures SameBlocks(old(mem[..]), mem[..], old(h).live, old(h).sz)
      ensures r in h.sz && r + h.sz[r] - 2 <= mem.Length && forall i | r <= i < r + h.sz[r] - 2 :: mem[i] == old(mem[i])
    {
      hide WF, SameBlocks, SameInners, WithFront, WithTail, Placed, AfterFront, AfterWhole, AfterSplit;
      ghost var m0, h0 := mem[..], h;
      HeldFacts(m0, h, bp);
      SetsOf(m0, h);
      var curr := SizeOf(mem[bp-1]);
      var offset := Min(curr - size, size);
      if withOffset && offset > 4 {
        r := PlaceFront(bp, offset);
        WithFrontSets(h0, bp, offset);
      } else {
        offset := 0;
        r := bp;
        SameBlocksRefl(m0, h, h.live + (h.out - {bp}));
      }
      ghost var m1, h1 := mem[..], h;
      SetsOf(m1, h1);
      HeldFacts(m1, h1, r);
      var remainder := curr - size - offset;
      if remainder < 4 {
        PlaceWhole(r, curr - offset);
      } else {
        PlaceSplit(r, size, remainder);
      }
      WithTailSets(h1, r, Taken(curr - offset, size, 0));
      PlacedIs(h0.sz, h1.sz, h.sz, bp, curr, size, withOffset);
      FrameJoin(m0, m1, mem[..], h0.live + (h0.out - {bp}), h0.sz, h1.live + (h1.out - {r}), h1.sz);
      SameBlocksLess(m0, mem[..], h0.live + (h0.out - {bp}), h0.live, h0.sz);
    }

    // The free block of offset words in front.
    method PlaceFront(bp: int, offset: int) returns (r: int)
      requires WF(mem[..], h) && Synced() && bp in h.out && bp in h.sz && 4 < offset && 3 <= h.sz[bp] - offset
      modifies mem, this`lastFree, this`h
      ensures WF(mem[..], h) && Synced() && |old(h).lists| == NUM_FL && h == WithFront(old(h), bp, offset)
      ensures Now() == AfterFront(old(Now()), bp, offset)
      ensures r == bp + offset && r !in old(h).sz
      ensures SameBlocks(old(mem[..]), mem[..], old(h).live + (old(h).out - {bp}), old(h).sz)
      ensures 1 <= bp && bp + old(h).sz[bp] - 1 <= mem.Length
      ensures forall i | r <= i < bp + old(h).sz[bp] - 1 :: mem[i] == old(mem[i])
    {
      hide WF, SameBlocks, SameInners, Offset, AfterAdd;
      ghost var m0, h0 := mem[..], h;
      FrontFacts(m0, h, bp, offset);
      FrontStep(m0, h, bp, offset, 0);
      PutTags(bp, offset, 0);
      ghost var m1 := mem[..];
      h := SplitAt(h, bp, offset);
      AddToFreeList(bp, offset);
      InnerHeader(m1, mem[..], h.sz, bp);
      r := bp + SizeOf(mem[bp-1]);
      WithFrontSets(h0, bp, offset);
      FrameJoin(m0, m1, mem[..], h0.live + (h0.out - {bp}), h0.sz, h.live + h.out, h.sz);
      SameBlockIn(m1, mem[..], h.live + h.out, h.sz, r);
    }

    // No remainder: the held block r becomes an allocated block.
    method PlaceWhole(r: int, n: int)
      requires WF(mem[..], h) && Synced() && r in h.out && r in h.sz && n == h.sz[r]
      modifies mem, this`h
      ensures WF(mem[..], h) && Synced() && |old(h).lists| == NUM_FL && h == WithTail(old(h), r, n)
      ensures Now() == AfterWhole(old(Now()), r, n)
      ensures SameBlocks(old(mem[..]), mem[..], old(h).live + (old(h).out - {r}), old(h).sz)
      ensures 1 <= r && r + n - 2 <= mem.Length
      ensures forall i | r <= i < r + n - 2 :: mem[i] == old(mem[i])
    {
      hide WF, SameBlocks;
      ghost var m0 := mem[..];
      HeldFacts(m0, h, r);
      ReleaseStep(m0, h, r);
      PutTags(r, n, 1);
      h := Released(h, r);
    }

    // The held block r becomes an allocated block of size words and a free remainder.
    method PlaceSplit(r: int, size: int, remainder: int)
      requires WF(mem[..], h) && Synced() && r in h.out && r in h.sz
      requires 3 <= size && 4 <= remainder && size + remainder == h.sz[r]
      modifies mem, this`lastFree, this`h
      ensures WF(mem[..], h) && Synced() && |old(h).lists| == NUM_FL && r + size !in old(h).sz
      ensures h == WithTail(old(h), r, size) && Now() == AfterSplit(old(Now()), r, size, remainder)
      ensures SameBlocks(old(mem[..]), mem[..], old(h).live + (old(h).out - {r}), old(h).sz)
      ensures 1 <= r && r + size - 2 <= mem.Length
      ensures forall i | r <= i < r + size - 2 :: mem[i] == old(mem[i])
    {
      hide WF, SameBlocks, SameInners;
      ghost var m0, h0 := mem[..], h;
      HeldFacts(m0, h, r);
      SetsOf(m0, h);
      SplitStep(m0, h, r, size);
      PutTags(r, size, 1);
      var rem := r + SizeOf(mem[r-1]);
      PutTags(rem, remainder, 0);
      ghost var m1 := mem[..];
      h := SplitAt(h, r, size);
      LastApart(m1, h, rem);
      AddToFreeList(rem, remainder);
      ghost var m2 := mem[..];
      WithTailSets(h0, r, size);
      SameBlockIn(m1, m2, h.live + h.out, h.sz, r);
      ReleaseWF(m2, h, r);
      FrameJoin(m0, m1, m2, h0.live + (h0.out - {r}), h0.sz, h.live + h.out, h.sz);
      h := Released(h, r);
    }

    // The end of every case of coalesce: tags for the merged block, then its list.
    method Refile(p: int, n: int)
      requires WF(mem[..], h) && Synced() && p in h.out && p in h.sz && n == h.sz[p] && 4 <= n
      modifies mem, this`lastFree, this`h
      ensures WF(mem[..], h) && Synced()
      ensures Now() == Refiled(old(Now()), p)
      ensures h.sz == old(h).sz && h.live == old(h).live && h.out == old(h).out - {p} && h.brk == old(h).brk
      ensures h.tiny == old(h).tiny
      ensures SameBlocks(old(mem[..]), mem[..], h.live, h.sz)
      ensures 1 <= p && p + n - 2 <= mem.Length
      ensures forall i | (if p + n == brk then p else p + 2) <= i < p + n - 2 :: mem[i] == old(mem[i])
      ensures Marks(old(mem[..]), mem[..])
    {
      hide WF, SameBlocks, SameInners, Marks, AfterAdd;
      ghost var m0, h0 := mem[..], h;
      HeldFacts(m0, h, p);
      PutTags(p, n, 0);
      ghost var m1 := mem[..];
      RetagStep(m0, m1, h, p);
      SameBlocksLess(m0, m1, h.live + (h.out - {p}), h.live, h.sz);
      LastApart(m1, h, p);
      AddToFreeList(p, n);
      InnerWords(m1, mem[..], h.sz, p);
      MarksTrans(m0, m1, mem[..]);
      FrameJoin(m0, m1, mem[..], h0.live, h0.sz, h.live + h.out, h.sz);
    }

    // coalesce, second case: only the next block is free.
    method MergeNext(bp: int)
      requires Mergeable(mem[..], h, bp, bp + if bp in h.sz then h.sz[bp] else 0) && Synced()
      modifies mem, this`lastFree, this`h
      ensures WF(mem[..], h) && Synced()
      ensures Merged(old(h), h, bp, End(old(h), bp + old(h).sz[bp])) && Now() == WithNext(old(Now()), bp)
      ensures SameBlocks(old(mem[..]), mem[..], old(h).live, old(h).sz)
      ensures forall i | bp + 2 <= i < bp + old(h).sz[bp] - 2 && i < mem.Length :: mem[i] == old(mem[i])
      ensures Marks(old(mem[..]), mem[..])
    {
      hide WF, SameBlocks, SameInners, Joined, Unindexed, Marks, AfterRemove, Refiled;
      ghost var m0, h0 := mem[..], h;
      ghost var next0 := bp + h.sz[bp];
      MergeFacts(m0, h, bp);
      MergeFacts(m0, h, next0);
      RemoveFromFreeList(bp);
      ghost var m1 := mem[..];
      InnerWords(m0, m1, h.sz, bp);
      var next := bp + SizeOf(mem[bp-1]);
      RemoveFromFreeList(next);
      ghost var m2, h2 := mem[..], h;
      InnersTrans(m0, m1, m2, h.sz);
      InnerWords(m0, m2, h.sz, bp);
      InnerWords(m0, m2, h.sz, next);
      var size := SizeOf(mem[bp-1]) + SizeOf(mem[next-1]);
      MergeHeld(m2, h, bp);
      h := Absorb(h, bp);
      Refile(bp, size);
      MarksTrans(m0, m1, m2);
      MarksTrans(m0, m2, mem[..]);
      FrameJoin(m0, m1, m2, h0.live, h0.sz, h0.live, h0.sz);
      FrameJoin(m0, m2, mem[..], h0.live, h0.sz, h.live, h.sz);
    }

    // The first two removals of the last two cases: bp and the block q before it.
    method DetachPair(bp: int, ghost q: int)
      requires Mergeable(mem[..], h, q, bp) && Synced() && q !in h.tiny
      modifies mem, this`lastFree, this`h
      ensures WF(mem[..], h) && Synced()
      ensures h.sz == old(h).sz && h.live == old(h).live && h.brk == old(h).brk && h.out == {q, bp} && h.tiny == {}
      ensures Now() == AfterRemove(AfterRemove(old(Now()), bp), q)
      ensures 2 <= bp && bp - SizeOf(mem[bp-2]) == q && 1 <= q && 4 <= h.sz[q] && SizeOf(mem[bp-1]) == h.sz[bp]
      ensures SizeOf(mem[q-1]) == h.sz[q]
      ensures SameBlocks(old(mem[..]), mem[..], h.live, h.sz) && SameInners(old(mem[..]), mem[..], h.sz)
      ensures bp == old(lastFree) ==> SameBlock(old(mem[..]), mem[..], bp, h.sz[bp])
      ensures Marks(old(mem[..]), mem[..])
    {
      hide WF, SameBlocks, SameInners, Unindexed, Marks, AfterRemove;
      ghost var m0 := mem[..];
      MergeFacts(m0, h, bp);
      MergeFacts(m0, h, q);
      FooterFacts(m0, h, q);
      RemoveFromFreeList(bp);
      ghost var m1 := mem[..];
      InnerWords(m0, m1, h.sz, q);
      RemoveFromFreeList(bp - SizeOf(mem[bp-2]));
      ghost var m2 := mem[..];
      InnersTrans(m0, m1, m2, h.sz);
      InnerWords(m0, m2, h.sz, bp);
      InnerWords(m0, m2, h.sz, q);
      SameBlockIn(m1, m2, h.live + h.out, h.sz, bp);
      MarksTrans(m0, m1, m2);
      FrameJoin(m0, m1, m2, h.live, h.sz, h.live, h.sz);
    }

    // coalesce, third case: only the previous block is free.
    method MergePrev(bp: int, ghost q: int) returns (r: int)
      requires Mergeable(mem[..], h, q, bp) && Synced() && q !in h.tiny
      modifies mem, this`lastFree, this`h
      ensures WF(mem[..], h) && Synced() && r == q
      ensures Merged(old(h), h, q, End(old(h), bp)) && Now() == WithPrev(old(Now()), q, bp)
      ensures SameBlocks(old(mem[..]), mem[..], old(h).live, old(h).sz)
      ensures forall i | 0 <= i && FreedFrom(old(h), bp) <= i < End(old(h), bp) - 2 && i < mem.Length ::
        mem[i] == old(mem[i])
      ensures Marks(old(mem[..]), mem[..])
    {
      hide WF, SameBlocks, SameInners, Joined, Marks, AfterRemove, Refiled;
      ghost var m0, h0 := mem[..], h;
      MergeFacts(m0, h, bp);
      MergeFacts(m0, h, q);
      EndIsLast(m0, h, bp);
      DetachPair(bp, q);
      ghost var m2, h2 := mem[..], h;
      InnerWords(m0, m2, h.sz, bp);
      r := bp - SizeOf(mem[bp-2]);
      var size := SizeOf(mem[bp-1]) + SizeOf(mem[r-1]);
      MergeHeld(m2, h, r);
      h := Absorb(h, r);
      Refile(r, size);
      MarksTrans(m0, m2, mem[..]);
      FrameJoin(m0, m2, mem[..], h0.live, h0.sz, h.live, h.sz);
    }

    // coalesce, last case: both neighbours are free.
    method MergeBoth(bp: int, ghost q: int) returns (r: int)
      requires Mergeable(mem[..], h, q, bp) && Synced() && q !in h.tiny
      requires End(h, bp) in h.sz && End(h, bp) !in h.live
      modifies mem, this`lastFree, this`h
      ensures WF(mem[..], h) && Synced() && r == q
      ensures Merged(old(h), h, q, End(old(h), End(old(h), bp))) && Now() == WithBoth(old(Now()), q, bp)
      ensures SameBlocks(old(mem[..]), mem[..], old(h).live, old(h).sz)
      ensures forall i | 0 <= i && bp + 2 <= i < End(old(h), bp) - 2 && i < mem.Length :: mem[i] == old(mem[i])
      ensures Marks(old(mem[..]), mem[..])
    {
      hide WF, SameBlocks, SameInners, Joined, Unindexed, Marks, AfterRemove, Refiled, Absorbed;
      ghost var m0, h0 := mem[..], h;
      ghost var next0 := End(h, bp);
      MergeFacts(m0, h, bp);
      MergeFacts(m0, h, q);
      MergeFacts(m0, h, next0);
      DetachPair(bp, q);
      ghost var m2 := mem[..];
      InnerWords(m0, m2, h.sz, next0);
      var next := bp + SizeOf(mem[bp-1]);
      RemoveFromFreeList(next);
      ghost var m3 := mem[..];
      InnerWords(m2, m3, h.sz, bp);
      InnerWords(m2, m3, h.sz, q);
      InnerWords(m2, m3, h.sz, next0);
      InnerWords(m0, m2, h.sz, bp);
      FrameJoin(m0, m2, m3, h.live, h.sz, h.live, h.sz);
      r := bp - SizeOf(mem[bp-2]);
      var size := SizeOf(mem[bp-1]) + SizeOf(mem[r-1]) + SizeOf(mem[next-1]);
      AbsorbBoth(r, bp, next);
      Refile(r, size);
      MarksTrans(m0, m2, m3);
      MarksTrans(m0, m3, mem[..]);
      FrameJoin(m0, m3, mem[..], h0.live, h0.sz, h.live, h.sz);
    }

    // Three consecutive held blocks become one.
    ghost method AbsorbBoth(p: int, q: int, r: int)
      requires WF(mem[..], h) && Synced() && h.out == {p, q, r} && p in h.sz && q in h.sz && r in h.sz
      requires p + h.sz[p] == q && q + h.sz[q] == r
      modifies this`h
      ensures WF(mem[..], h) && Synced() && h.out == {p} && p in h.sz
      ensures Now() == Absorbed(Absorbed(old(Now()), p), p)
      ensures h.sz == Joined(old(h).sz, p, r + old(h).sz[r]) && h.sz[p] == old(h).sz[p] + old(h).sz[q] + old(h).sz[r]
      ensures h.live == old(h).live && h.tiny == old(h).tiny && h.brk == old(h).brk
      ensures forall x | x in h.live :: x in h.sz && x in old(h).sz && h.sz[x] == old(h).sz[x]
    {
      hide WF, Joined;
      ghost var h0 := h;
      HeldFacts(mem[..], h, p);
      HeldFacts(mem[..], h, q);
      HeldFacts(mem[..], h, r);
      MergeHeld(mem[..], h, p);
      h := Absorb(h, p);
      MergeHeld(mem[..], h, p);
      h := Absorb(h, p);
      JoinedTwice(h0.sz, p, r, r + h0.sz[r]);
    }

    // coalesce.
    method Coalesce(bp: int) returns (r: int)
      requires Inv() && bp in h.sz && bp !in h.live && h.tiny <= {bp}
      modifies mem, this`lastFree, this`h
      ensures Inv() && Coalesced(old(h), h, bp, r) && h.live == old(h).live && h.brk == old(h).brk
      ensures Now() == AfterCoalesce(old(Now()), bp)
      ensures SameBlocks(old(mem[..]), mem[..], old(h).live, old(h).sz)
      ensures forall i | 0 <= i && FreedFrom(old(h), bp) <= i < End(old(h), bp) - 2 && i < mem.Length ::
        mem[i] == old(mem[i])
      ensures Marks(old(mem[..]), mem[..])
    {
      hide WF, SameBlocks, SameInners, Joined, SizeOf, AllocOf, WithNext, WithPrev, WithBoth;
      ghost var m0, h0 := mem[..], h;
      ghost var q := Neighbours(m0, h, bp);
      BeforeIs(h, bp, q);
      FreeFacts(m0, h, NULL);
      SameBlocksRefl(m0, h, h.live);
      SplitsNothing(m0, h, bp);
      var prev := bp - SizeOf(mem[bp-2]);
      var prevAlloc := AllocOf(mem[prev + SizeOf(mem[prev-1]) - 2]);
      var nextAlloc := AllocOf(mem[bp + SizeOf(mem[bp-1]) - 1]);
      if prevAlloc == 1 && nextAlloc == 1 {
        r := bp;
      } else if prevAlloc == 1 {
        MergeNext(bp);
        r := bp;
        JoinedAt(h0.sz, bp, End(h0, End(h0, bp)));
      } else if nextAlloc == 1 {
        r := MergePrev(bp, q);
        JoinedAt(h0.sz, q, End(h0, bp));
      } else {
        r := MergeBoth(bp, q);
        JoinedAt(h0.sz, q, End(h0, End(h0, bp)));
      }
    }


    // mem_init and the statics of mm.c: an empty heap of at most max words at lo.
    constructor (lo: int, max: int)
      requires 2 <= lo && 0 <= max
      ensures Empty() && this.lo == lo && mem.Length == lo + max && fresh(mem)
    {
      this.lo := lo;
      mem := new int[lo + max];
      brk, lastFree := lo, NULL;
      h := Layout(lo, lo, map[], {}, NULL, [], {}, {});
    }

    predicate Empty()
      reads this
    {
      2 <= lo <= mem.Length && brk == lo && lastFree == NULL
    }

    // mm_init.
    method Init() returns (status: int)
      requires Empty()
      modifies mem, this
      ensures status == 0 || status == -1
      ensures status == 0 <==> lo + 27 + 128 <= mem.Length
      ensures status == 0 ==> Valid() && h.live == {} && h.sz == map[lo + 27 := 128] && brk == lo + 155 && NoAdjacent(h)
    {
      var heap := Sbrk(3 * NUM_FL + 3);
      if heap == NULL {
        return -1;
      }
      var i := 0;
      while i < NUM_FL
        invariant 0 <= i <= NUM_FL && brk == lo + 27 <= mem.Length && lastFree == NULL
        invariant forall j | 0 <= j < i :: EmptyList(mem[..], lo, j)
      {
        ghost var m := mem[..];
        Put(heap + 3 * i, NULL);
        Put(heap + 3 * i + 1, 8 * (heap + 3 * i + 2));
        Put(heap + 3 * i + 2, 8 * (heap + 3 * i));
        forall j | 0 <= j < i ensures EmptyList(mem[..], lo, j) { assert EmptyList(m, lo, j); }
        i := i + 1;
      }
      ghost var m := mem[..];
      Put(heap + 3 * NUM_FL, Pack(2, 1));
      Put(heap + 3 * NUM_FL + 1, Pack(2, 1));
      Put(heap + 3 * NUM_FL + 2, Pack(0, 1));
      forall k | 0 <= k < NUM_FL ensures EmptyList(mem[..], lo, k) { assert EmptyList(m, lo, k); }
      h := Layout(lo, brk, map[], {}, NULL, seq(NUM_FL, _ => []), {}, {});
      InitialWF(mem[..], h);
      var page := ExtendHeap(128);
      if page == NULL {
        return -1;
      }
      return 0;
    }

    // mm_free.
    method Free(bp: int) returns (ghost r: int)
      requires Valid() && bp in h.live
      modifies mem, this`lastFree, this`h
      ensures Inv() && |old(h).lists| == NUM_FL && bp in old(h).sz
      ensures Coalesced(Filed(old(h), bp), h, bp, r) && Now() == AfterFree(old(Now()), bp) && h == Freed(old(h), bp)
      ensures h.live == old(h).live - {bp} && h.brk == old(h).brk
      ensures Valid() <==> !StrandsTiny(old(h), bp)
      ensures NoAdjacent(old(h)) ==> NoAdjacent(h)
      ensures SpansFreed(old(h), h, bp, r)
      ensures SameBlocks(old(mem[..]), mem[..], h.live, old(h).sz)
      ensures forall i | 0 <= i && FreedFrom(old(h), bp) <= i < End(old(h), bp) - 2 && i < mem.Length ::
        mem[i] == old(mem[i])
      ensures Marks(old(mem[..]), mem[..]) && 0 <= bp < mem.Length
      ensures End(old(h), bp) != brk ==> IsMark(mem[bp], mem.Length)
    {
      hide WF, SameBlocks, SameInners, Coalesced, NoAdjacent, SpansFreed, Marks, AfterAdd, AfterCoalesce;
      ghost var m0, h0 := mem[..], h;
      LiveFacts(m0, h, bp);
      TiledOf(m0, h);
      var size := SizeOf(mem[bp-1]);
      TakeWF(m0, h, bp);
      h := Held(h, bp);
      PutTags(bp, size, 0);
      ghost var m1 := mem[..];
      RetagStep(m0, m1, h, bp);
      assert h.out == {bp};
      LastApart(m1, h, bp);
      AddToFreeList(bp, size);
      ghost var m2, h2 := mem[..], h;
      FiledSets(h0, bp);
      InnerWords(m1, m2, h.sz, bp);
      r := Coalesce(bp);
      FreedOnly(State(m0, h0), bp);
      TinyAfterFree(h0, h, bp, r);
      FreedFacts(m0, h0, mem[..], h, bp, r);
      MarksTrans(m0, m1, m2);
      MarksTrans(m0, m2, mem[..]);
      if bp + size != brk { MarkStays(m2, mem[..], bp); }
      SameBlocksLess(m0, m1, h.live + ({bp} - {bp}), h.live, h0.sz);
      FrameJoin(m0, m1, m2, h.live, h0.sz, h2.live + h2.out, h0.sz);
      FrameJoin(m0, m2, mem[..], h.live, h0.sz, h2.live, h0.sz);
    }

    // mm_malloc.
    method Malloc(bytes: int) returns (r: int)
      requires Valid() && 0 <= bytes && 8 * RoundPage(Aligned(bytes)) < INT_RANGE
      modifies mem, this
      ensures Valid() && Extendable(old(h))
      ensures r == NULL <==> bytes == 0 || NoRoom(old(h), Aligned(bytes), mem.Length)
      ensures bytes > 0 ==> Served(old(h), old(brk), Aligned(bytes), mem.Length, r != NULL, brk)
      ensures r == NULL ==> h == old(h) && mem[..] == old(mem[..])
      ensures r != NULL ==> Allocated(old(h), h, Aligned(bytes), r)
      ensures r != NULL ==>
        Now() == AfterMalloc(old(Now()), Aligned(bytes)) && r == MallocResult(old(h), Aligned(bytes))
      ensures r != NULL ==> r in h.sz && bytes <= 8 * (h.sz[r] - 2)
      ensures SameBlocks(old(mem[..]), mem[..], old(h).live, old(h).sz)
      ensures NoAdjacent(old(h)) ==> NoAdjacent(h)
    {
      hide WF, SameBlocks, SameInners, Unindexed, Extended, Fit, Placed, Allocated, NoAdjacent, TooSmall, Served,
           AfterRemove, AfterPlace, AfterExtend, Offset;
      ghost var m0, h0 := mem[..], h;
      SameBlocksRefl(m0, h, h.live);
      LastTagged(m0, h);
      if bytes == 0 {
        return NULL;
      }
      var size := Aligned(bytes);
      FitFacts(m0, h, size);
      ShiftIs(h, size);
      r := FindFit(size);
      if r == NULL {
        return;
      }
      var b := r;
      ghost var m1, h1 := mem[..], h;
      assert h1 == FitLayout(h0, size) && b == FitBlock(h0, size);
      MergeFacts(m1, h1, b);
      RemoveFromFreeList(b);
      ghost var m2 := mem[..];
      InnerWords(m1, m2, h1.sz, b);
      r := Place(b, size, true);
      AllocatedFacts(m0, h0, m1, h, size, r);
      AllocatedSets(h0, h, size, r);
      if NoAdjacent(h0) { AllocatedNoAdjacent(m0, h0, m1, h, size, r); }
      FrameJoin(m0, m1, m2, h0.live, h0.sz, h0.live, h1.sz);
      FrameJoin(m0, m2, mem[..], h0.live, h0.sz, h0.live, h1.sz);
    }

    // The allocated block bp takes over the free block next that follows it.
    method Annex(bp: int, next: int)
      requires Valid() && bp in h.live && bp in h.sz && next == End(h, bp) && next in h.sz && next !in h.live
      modifies mem, this`lastFree, this`h
      ensures WF(mem[..], h) && Synced() && h.out == {bp} && h.live == old(h).live - {bp} && h.tiny == {}
      ensures h.brk == old(h).brk
      ensures h.sz == Joined(old(h).sz, bp, End(old(h), next)) && bp in h.sz
      ensures h.sz[bp] == old(h).sz[bp] + old(h).sz[next]
      ensures Now() == Annexed(old(Now()), bp)
      ensures 1 <= bp <= mem.Length && SizeOf(mem[bp-1]) == h.sz[bp] && bp + h.sz[bp] - 1 <= mem.Length
      ensures forall i | bp <= i < bp + old(h).sz[bp] - 2 :: mem[i] == old(mem[i])
      ensures SameBlocks(old(mem[..]), mem[..], old(h).live - {bp}, old(h).sz)
      ensures forall q | q in h.live :: q in h.sz && q in old(h).sz && h.sz[q] == old(h).sz[q]
    {
      hide WF, SameBlocks, SameInners, Unindexed, Joined, Absorb, Marks, IsMark, AfterRemove;
      ghost var m0, h0 := mem[..], h;
      LiveFacts(m0, h, bp);
      MergeFacts(m0, h, next);
      LiveApart(m0, h, bp, next);
      var oldSize := SizeOf(mem[bp-1]);
      var nextSize := SizeOf(mem[next-1]);
      RemoveFromFreeList(next);
      ghost var m1 := mem[..];
      SameBlockIn(m0, m1, h.live, h.sz, bp);
      TakeWF(m1, h, bp);
      h := Held(h, bp);
      MergeHeld(m1, h, bp);
      h := Absorb(h, bp);
      PutTags(bp, oldSize + nextSize, 0);
      HeldFacts(m1, h, bp);
      RetagStep(m1, mem[..], h, bp);
      SameBlocksLess(m0, m1, h0.live, h0.live - {bp}, h0.sz);
      FrameJoin(m0, m1, mem[..], h0.live - {bp}, h0.sz, h.live + (h.out - {bp}), h.sz);
    }

    // mm_realloc where the block can stay: the free block next, if there is one to be
    // absorbed, follows bp.
    method Swallow(bp: int, next: int, size: int) returns (r: int)
      requires Valid() && bp in h.live && bp in h.sz && next == End(h, bp) && next in h.sz && next !in h.live
      requires 3 <= size <= h.sz[bp] + h.sz[next]
      modifies mem, this`lastFree, this`h
      ensures Valid() && r == bp && Kept(old(h), h, bp, End(old(h), next), size)
      ensures Now() == AfterSwallow(old(Now()), bp, size)
      ensures SameBlocks(old(mem[..]), mem[..], old(h).live - {bp}, old(h).sz)
      ensures KeptWords(old(mem[..]), mem[..], bp, bp, Min(old(h).sz[bp], h.sz[bp]) - 2)
    {
      hide WF, SameBlocks, Placed, Joined, Kept, Annexed, AfterPlace;
      ghost var m0, h0 := mem[..], h;
      LiveFacts(m0, h, bp);
      Annex(bp, next);
      ghost var m2, h2 := mem[..], h;
      r := Place(bp, size, false);
      KeptFacts(m0, h0, h, bp, End(h0, next), size);
      FrameJoin(m0, m2, mem[..], h0.live - {bp}, h0.sz, h2.live, h2.sz);
    }

    // mm_realloc, third path: extend the heap by words and absorb the new space.
    method Grow(bp: int, words: int, size: int) returns (r: int)
      requires Valid() && bp in h.live && bp in h.sz && AtEnd(h, bp) && Extendable(h)
      requires 3 <= size && 3 <= words && 8 * words < INT_RANGE && Missing(h, bp, size) <= words
      modifies mem, this
      ensures Valid() && (r == NULL <==> SbrkFails(words, old(brk)))
      ensures r == NULL ==> h == old(h) && mem[..] == old(mem[..])
      ensures r != NULL ==>
        && r == bp && Kept(Extended(old(h), words), h, bp, old(brk) + words, size)
        && Now() == AfterSwallow(AfterExtend(old(Now()), words), bp, size)
        && SameBlocks(old(mem[..]), mem[..], old(h).live - {bp}, old(h).sz)
        && KeptWords(old(mem[..]), mem[..], bp, bp, Min(old(h).sz[bp], h.sz[bp]) - 2)
    {
      hide WF, SameBlocks, Kept, KeptWords, Extended, AfterExtend, AfterSwallow;
      ghost var m0, h0 := mem[..], h;
      LiveFacts(m0, h, bp);
      var next := ExtendHeap(words);
      if next == NULL {
        return NULL;
      }
      ghost var m1, h1 := mem[..], h;
      GrownNext(m0, h0, bp, words, size);
      r := Swallow(bp, next, size);
      SameBlockIn(m0, m1, h0.live, h0.sz, bp);
      KeptLive(h1, h, bp, h0.brk + words, size);
      KeptWordsAfter(m0, m1, mem[..], bp, h0.sz[bp], Min(h0.sz[bp], h.sz[bp]) - 2);
      SameBlocksLess(m0, m1, h0.live, h0.live - {bp}, h0.sz);
      FrameJoin(m0, m1, mem[..], h0.live - {bp}, h0.sz, h0.live - {bp}, h1.sz);
    }

    // mm_realloc, first path: the block is large enough.
    method Shrink(bp: int, size: int) returns (r: int)
      requires Valid() && bp in h.live && bp in h.sz && 3 <= size <= h.sz[bp]
      modifies mem, this`lastFree, this`h
      ensures Valid() && r == bp && Kept(old(h), h, bp, End(old(h), bp), size)
      ensures Now() == AfterShrink(old(Now()), bp, size)
      ensures SameBlocks(old(mem[..]), mem[..], old(h).live - {bp}, old(h).sz)
      ensures KeptWords(old(mem[..]), mem[..], bp, bp, Min(old(h).sz[bp], h.sz[bp]) - 2)
    {
      hide WF, SameBlocks, SameInners, Placed, Joined, AfterPlace;
      ghost var m0, h0 := mem[..], h;
      LiveFacts(m0, h, bp);
      SplitsNothing(m0, h, bp);
      TakeWF(m0, h, bp);
      h := Held(h, bp);
      r := Place(bp, size, false);
      KeptFacts(m0, h0, h, bp, End(h0, bp), size);
    }

    // mm_realloc, last path: free the block, find another one and move the payload.
    method Move(bp: int, size: int) returns (r: int)
      requires Valid() && bp in h.live && bp in h.sz && h.sz[bp] < size && 8 * RoundPage(size) < INT_RANGE
      modifies mem, this
      ensures Inv() && Moving(old(h), bp) && h.tiny == Freed(old(h), bp).tiny
      ensures h.tiny == {} <==> !StrandsTiny(old(h), bp)
      ensures r == NULL <==> NoRoom(Freed(old(h), bp), size, mem.Length)
      ensures Served(Freed(old(h), bp), old(brk), size, mem.Length, r != NULL, brk)
      ensures r == NULL ==> Now() == AfterFree(old(Now()), bp) && h == Freed(old(h), bp)
      ensures r != NULL ==> Now() == AfterMove(old(Now()), bp, size) && r == MallocResult(Freed(old(h), bp), size)
      ensures r != NULL ==> Allocated(Freed(old(h), bp), h, size, r)
      ensures SameBlocks(old(mem[..]), mem[..], old(h).live - {bp}, old(h).sz)
      ensures r != NULL ==>
        Moved(old(mem[..]), WordsBeforeCopy(old(Now()), bp, size), mem[..], old(h), bp, r,
          Shift(Freed(old(h), bp), size))
    {
      hide WF, SameBlocks, SameInners, Unindexed, Extended, Fit, Placed, Allocated, NoAdjacent, TooSmall, Coalesced,
           Offset, Moved, StrandsTiny, Marks, FreedWords, Served, IsMark, AfterFree, AfterFit, AfterRemove, AfterPlace,
           Copied, Freed, Shift;
      ghost var m0, h0 := mem[..], h;
      LiveFacts(m0, h, bp);
      var copy := SizeOf(mem[bp-1]) - 2;
      var w0, w1 := mem[bp], mem[bp+1];
      ghost var x := Free(bp);
      ghost var m1, freed := mem[..], h;
      assert WF(m1, freed);
      LastTagged(m1, h);
      FreeFacts(m1, h, NULL);
      FitFacts(m1, h, size);
      ShiftIs(h, size);
      r := FindFit(size);
      if r == NULL {
        return;
      }
      var b := r;
      ghost var m2, h2 := mem[..], h;
      MovedSource(m0, h0, m1, freed, m2, h2, bp, x, size);
      r := Refill(b, bp, copy, w0, w1, size, x, m0, h0);
      AllocatedFacts(m1, freed, m2, h, size, r);
      FrameJoin(m1, m2, mem[..], freed.live, freed.sz, freed.live, h2.sz);
      FrameJoin(m0, m1, mem[..], freed.live, h0.sz, freed.live, freed.sz);
    }

    // The free block b, out of the index, receives the payload and is split.  x is the
    // block the payload comes from, m0 and h0 the heap before the block was freed.
    method Refill(b: int, bp: int, copy: int, w0: int, w1: int, size: int, ghost x: int, ghost m0: seq<int>,
            ghost h0: Layout)
      returns (r: int)
      requires Inv() && b in h.sz && b !in h.live && b !in h.tiny && 3 < size <= h.sz[b]
      requires 1 <= copy && copy + 2 < size && 0 <= bp && x in h.sz && x <= bp && bp + copy + 2 <= x + h.sz[x]
      requires bp in h0.sz && copy == h0.sz[bp] - 2 && FreedWords(m0, mem[..], h0, bp)
      requires bp + 1 < |m0| == mem.Length && w0 == m0[bp] && w1 == m0[bp+1]
      modifies mem, this`lastFree, this`h
      ensures Inv() && h.tiny == old(h).tiny && h.live == old(h).live + {r} && h.brk == old(h).brk && 0 <= b
      ensures r == b + Offset(old(h).sz[b], size, true) && h.sz == Placed(old(h).sz, b, old(h).sz[b], size, true)
      ensures SameBlocks(old(mem[..]), mem[..], old(h).live, old(h).sz)
      ensures b <= r && r in h.sz && r + h.sz[r] - 2 <= mem.Length && size <= h.sz[r]
      ensures Moved(m0, old(mem[..]), mem[..], h0, bp, r, r - b)
      ensures var s := AfterRemove(old(Now()), b);
        Now() == AfterPlace(State(Copied(s.m, b, bp, copy, w0, w1), s.h), b, old(h).sz[b], size, true)
    {
      hide WF, SameBlocks, SameInners, Unindexed, Placed, Offset, FreedWords, Moved, Marks, AfterRemove, AfterPlace,
           Copied;
      ghost var m2, h2 := mem[..], h;
      MergeFacts(m2, h2, b);
      PlacedAt(h2.sz, b, h2.sz[b], size);
      RemoveFromFreeList(b);
      ghost var m3 := mem[..];
      InnerWords(m2, m3, h2.sz, b);
      InnerWords(m2, m3, h2.sz, x);
      HeldFacts(m3, h, b);
      MovePayload(b, bp, copy, w0, w1);
      ghost var m4 := mem[..];
      RetagStep(m3, m4, h, b);
      SameBlocksLess(m3, m4, h.live + (h.out - {b}), h.live, h.sz);
      r := Place(b, size, true);
      MovedWords(m0, m2, mem[..], h0, bp, b, r, h.sz[r]);
      assert h.tiny == h2.tiny;
      FrameJoin(m2, m3, m4, h2.live, h2.sz, h2.live, h2.sz);
      FrameJoin(m2, m4, mem[..], h2.live, h2.sz, h2.live, h2.sz);
    }

    // memmove of the payload followed by memcpy of its first two words, which were
    // saved before mm_free put links there.
    method MovePayload(b: int, bp: int, copy: int, w0: int, w1: int)
      requires 0 <= b && 0 <= bp && 1 <= copy && b + copy <= mem.Length && bp + copy <= mem.Length && b + 1 < mem.Length
      modifies mem
      ensures mem[b] == w0 && mem[b+1] == w1 && mem[..] == Copied(old(mem[..]), b, bp, copy, w0, w1)
      ensures forall j | b + 2 <= j < b + copy :: mem[j] == old(mem[bp + j - b])
      ensures forall j | 0 <= j < mem.Length && !(b <= j < b + copy) && j != b + 1 :: mem[j] == old(mem[j])
    {
      forall j | b <= j < b + copy {
        mem[j] := mem[bp + j - b];
      }
      mem[b] := w0;
      mem[b+1] := w1;
      ghost var was := old(mem[..]);
      forall j | 0 <= j < mem.Length ensures mem[j] == Copied(was, b, bp, copy, w0, w1)[j] {
        CopiedAt(was, b, bp, copy, w0, w1, j);
        if b + 2 <= j < b + copy {
          assert mem[j] == old(mem[bp + j - b]) == was[bp + j - b];
        } else if j != b && j != b + 1 {
          assert mem[j] == old(mem[j]) == was[j];
        }
      }
    }

    // mm_realloc.
    method Realloc(bp: int, bytes: int) returns (r: int)
      requires Valid() && 0 <= bytes && 8 * RoundPage(Aligned(bytes)) < INT_RANGE
      requires bp == NULL || (bp in h.live && bp in h.sz)
      modifies mem, this
      ensures Inv() && Extendable(old(h)) && |old(h).lists| == NUM_FL
      // realloc(NULL, n) is malloc(n) and realloc(p, 0) is free(p)
      ensures bp == NULL ==>
        && Valid() && SameBlocks(old(mem[..]), mem[..], old(h).live, old(h).sz)
        && (r == NULL <==> bytes == 0 || NoRoom(old(h), Aligned(bytes), mem.Length))
        && (bytes > 0 ==> Served(old(h), old(brk), Aligned(bytes), mem.Length, r != NULL, brk))
        && if r == NULL then Now() == old(Now()) else
             Allocated(old(h), h, Aligned(bytes), r) && Now() == AfterMalloc(old(Now()), Aligned(bytes))
      ensures bp != NULL && bytes == 0 ==> r == NULL && Now() == AfterFree(old(Now()), bp) && h == Freed(old(h), bp)
      ensures bp != NULL && bytes > 0 ==> Resized(old(Now()), Now(), bp, Aligned(bytes), mem.Length, r)
      ensures bp != NULL ==> SameBlocks(old(mem[..]), mem[..], old(h).live - {bp}, old(h).sz)
      ensures Valid() <==>
        bp == NULL || (bytes > 0 && Stays(old(h), bp, Aligned(bytes), mem.Length)) || !StrandsTiny(old(h), bp)
    {
      hide WF, SameBlocks, Kept, Allocated, Coalesced, KeptWords, StrandsTiny, TooSmall, Extended, Moved, Moving,
           SizeOf, AllocOf, FitBlock, NoAdjacent, SpansFreed, AfterFree, AfterMove, AfterSwallow, AfterShrink,
           AfterExtend, AfterMalloc, Freed, Shift, NoRoom, WordsBeforeCopy, Served, Resized, Stays, StayLayout,
           StayEnd, AfterRealloc, ReallocResult, MallocResult;
      ghost var m0, h0 := mem[..], h;
      FreeFacts(m0, h, NULL);
      LastTagged(m0, h);
      if bp == NULL {
        r := Malloc(bytes);
        return;
      }
      if bytes == 0 {
        ghost var x := Free(bp);
        return NULL;
      }
      ghost var s0 := State(m0, h0);
      var oldSize := SizeOf(mem[bp-1]);
      var size := Aligned(bytes);
      NextHeader(m0, h, bp);
      if size <= oldSize {
        r := Shrink(bp, size);
        KeptLive(h0, h, bp, End(h0, bp), size);
        ShrinkResized(s0, Now(), bp, size, mem.Length);
        return;
      }
      var next := bp + SizeOf(mem[bp-1]);
      var nextSize := SizeOf(mem[next-1]);
      if AllocOf(mem[next-1]) == 0 && size <= oldSize + nextSize {
        r := Swallow(bp, next, size);
        KeptLive(h0, h, bp, End(h0, next), size);
        SwallowResized(s0, Now(), bp, size, mem.Length);
        return;
      }
      if next == brk || next == lastFree {
        var extend := size - oldSize;
        if lastFree != NULL {
          extend := size - oldSize - SizeOf(mem[lastFree-1]);
        }
        r := Grow(bp, RoundPage(extend), size);
        if r != NULL {
          KeptLive(Extended(h0, RoundPage(extend)), h, bp, h0.brk + RoundPage(extend), size);
          GrowResized(s0, Now(), bp, size, mem.Length);
          return;
        }
      }
      r := Move(bp, size);
      MoveResized(s0, Now(), bp, size, mem.Length, r);
    }

    // The first loop of mm_check, over the blocks in order.
    method CheckBlocks() returns (ok: bool)
      requires Inv()
      ensures ok <==> Valid()
    {
      var curr := lo + 25;
      Packed(2, 1);
      TinyBelowEnd(h);
      while curr < brk
        invariant curr == lo + 25 || curr in h.sz || curr == brk
        invariant forall t | t in h.tiny :: curr <= t
        decreases brk - curr
      {
        if curr == lo + 25 {
          assert Tagged(mem[..], lo + 25, 2, 1);
        } else {
          CheckedBlock(mem[..], h, curr);
        }
        var size := SizeOf(mem[curr-1]);
        var footer := mem[curr + size - 2];
        if size != SizeOf(footer) || AllocOf(mem[curr-1]) != AllocOf(footer) {
          return false;
        }
        TinyAhead(h, curr);
        curr := curr + size;
      }
      assert h.tiny == {};
      ok := true;
    }

    // The second loop of mm_check, over one free list.
    method CheckList(k: nat) returns (ok: bool)
      requires Valid() && k < NUM_FL
      ensures ok
    {
      NextNode(mem[..], h, k, 0);
      var curr := mem[Pro(lo, k)+1] / 8;
      ghost var i := 0;
      while curr != Epi(lo, k)
        invariant 0 <= i <= |h.lists[k]| && curr == Chain(h, k)[i+1]
        decreases |h.lists[k]| - i
      {
        ListedTagged(mem[..], h, k, i);
        assert ListedAt(h, h.lists[k][i], k);
        CheckedBlock(mem[..], h, curr);
        var size := SizeOf(mem[curr-1]);
        var footer := mem[curr + size - 2];
        if size != SizeOf(footer) || AllocOf(mem[curr-1]) != AllocOf(footer) {
          return false;
        }
        if AllocOf(mem[curr-1]) != 0 {
          return false;
        }
        NextNode(mem[..], h, k, i + 1);
        curr := mem[curr+1] / 8;
        i := i + 1;
      }
      ok := true;
    }

    // mm_check: the consistency check of the repository, on the words alone.
    method Check() returns (status: int)
      requires Inv()
      ensures status == 0 || status == 1
      ensures status == 0 <==> Valid()
    {
      var ok := CheckBlocks();
      if !ok {
        return 1;
      }
      var n := MIN_FREE_SIZE;
      while n < MIN_FREE_SIZE + NUM_FL
        invariant 5 <= n <= 13
      {
        ok := CheckList(n - MIN_FREE_SIZE);
        if !ok {
          return 1;
        }
        n := n + 1;
      }
      return 0;
    }

    // A client writes a word of the payload of its block.
    method Store(p: int, i: int, v: int)
      requires Valid() && p in h.live && p in h.sz && 0 <= i < h.sz[p] - 2
      modifies mem
      ensures Valid() && 0 <= p + i < mem.Length && mem[..] == old(mem[..])[p + i := v]
      ensures SameBlocks(old(mem[..]), mem[..], h.live - {p}, h.sz)
    {
      ghost var m0 := mem[..];
      LiveFacts(m0, h, p);
      hide WF, SameBlocks;
      Put(p + i, v);
      StoreStep(m0, mem[..], h, p);
    }
  }
}
