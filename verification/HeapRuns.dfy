// Short runs of the allocator: two that break a promise, and one that keeps a payload
// behind a free block.
module HeapRuns {
  import opened HeapLayout
  import opened HeapSteps
  import opened Policy
  import opened HeapSpec
  import opened SizeClasses
  import opened Requests
  import opened Allocator

  // ------------------------------------------------- which block a request gets

  // p is the only free block, but perhaps for the last one, that is large enough.
  ghost predicate OnlyFit(h: Layout, p: int, size: int)
  {
    && p in h.sz && p !in h.live && size <= h.sz[p]
    && forall q | q in h.sz && q !in h.live && q != p && q + h.sz[q] < h.brk :: h.sz[q] < size
  }

  lemma OnlyFitChosen(m: seq<int>, h: Layout, p: int, size: int)
    requires WF(m, h) && h.out == {} && 3 <= size && OnlyFit(h, p, size)
    ensures Extendable(h) && Fit(h, size) == p && FitLayout(h, size) == h && FitBlock(h, size) == p
  {
    LastTagged(m, h);
    if h.last != NULL { LastFacts(m, h); }
    SearchIsExhaustive(h, size);
    var f := FitFrom(h.lists, h.sz, size, ClassOf(size));
    if p != h.last {
      BeforeEnd(h, p);
      if f != p { BeforeEnd(h, f); }
    } else if f != NULL {
      BeforeEnd(h, f);
    }
  }

  lemma OnlyFitAllocated(m: seq<int>, h: Layout, h': Layout, p: int, size: int, r: int)
    requires WF(m, h) && h.out == {} && 3 <= size && OnlyFit(h, p, size) && Extendable(h)
    requires Allocated(h, h', size, r)
    ensures r == p + Offset(h.sz[p], size, true) && h'.sz == Placed(h.sz, p, h.sz[p], size, true)
    ensures h'.live == h.live + {r} && h'.brk == h.brk
  {
    OnlyFitChosen(m, h, p, size);
  }

  // malloc(8) twice and free of the first: the freed block is too small for its two
  // links and its footer, and mm_check complains.
  method TinyFree(heap: Heap) returns (status: int)
    requires heap.Empty() && heap.lo + 155 <= heap.mem.Length
    modifies heap, heap.mem
    ensures status == 1 && !heap.Valid()
  {
    hide WF, Served, CanGrow, GrownTo, Allocated, Coalesced, NoAdjacent, SameBlocks, TooSmall, AfterMalloc, AfterFree,
         MallocResult, NoRoom, Freed;
    var lo := heap.lo;
    var ok := heap.Init();
    ghost var m0, h0 := heap.mem[..], heap.h;
    var a := heap.Malloc(8);
    OnlyFitIs(m0, h0, lo + 27, 3);
    OnlyFitAllocated(m0, h0, heap.h, lo + 27, 3, a);
    assert heap.h.sz == map[lo + 27 := 3, lo + 30 := 125];
    ghost var m1, h1 := heap.mem[..], heap.h;
    var b := heap.Malloc(8);
    OnlyFitIs(m1, h1, lo + 30, 3);
    OnlyFitAllocated(m1, h1, heap.h, lo + 30, 3, b);
    assert heap.h.sz == map[lo + 27 := 3, lo + 30 := 3, lo + 33 := 122];
    assert StrandsTiny(heap.h, a);
    ghost var x := heap.Free(a);
    status := heap.Check();
  }

  lemma OnlyFitIs(m: seq<int>, h: Layout, p: int, size: int)
    requires WF(m, h) && h.out == {} && 3 <= size && OnlyFit(h, p, size)
    ensures Extendable(h) && !TooSmall(h, size) && forall cap :: !NoRoom(h, size, cap)
  {
    LastTagged(m, h);
  }

  // One malloc of which the outcome is known.
  method MallocAt(heap: Heap, bytes: int, ghost p: int) returns (r: int)
    requires heap.Valid() && 0 < bytes && 8 * RoundPage(Aligned(bytes)) < INT_RANGE
    requires OnlyFit(heap.h, p, Aligned(bytes))
    modifies heap, heap.mem
    ensures heap.Valid() && p in old(heap.h).sz && r in heap.h.sz
    ensures r == p + Offset(old(heap.h).sz[p], Aligned(bytes), true)
    ensures heap.h.sz == Placed(old(heap.h).sz, p, old(heap.h).sz[p], Aligned(bytes), true)
    ensures heap.h.live == old(heap.h).live + {r} && heap.h.brk == old(heap.h).brk
  {
    hide WF, Served, CanGrow, GrownTo, Allocated, NoAdjacent, SameBlocks, TooSmall, Placed, Offset, AfterMalloc,
         MallocResult;
    ghost var m0, h0 := heap.mem[..], heap.h;
    r := heap.Malloc(bytes);
    OnlyFitIs(m0, h0, p, Aligned(bytes));
    OnlyFitAllocated(m0, h0, heap.h, p, Aligned(bytes), r);
  }

  // The heap just before the failing realloc: w of 10 words between allocated blocks,
  // and a free block of 16 words.
  method Prepare(heap: Heap) returns (w: int)
    requires heap.Empty() && heap.lo + 155 <= heap.mem.Length
    modifies heap, heap.mem
    ensures heap.Valid() && w == heap.lo + 59 && heap.h.brk == heap.lo + 155
    ensures heap.h.sz == map[heap.lo + 27 := 16, heap.lo + 43 := 16, heap.lo + 59 := 10, heap.lo + 69 := 10,
      heap.lo + 79 := 76]
    ensures heap.h.live == {heap.lo + 27, heap.lo + 43, heap.lo + 59, heap.lo + 69}
  {
    hide WF;
    var lo := heap.lo;
    var ok := heap.Init();
    var x := MallocAt(heap, 112, lo + 27);
    assert heap.h.sz == map[lo + 27 := 16, lo + 43 := 16, lo + 59 := 96];
    var y := MallocAt(heap, 112, lo + 27);
    assert heap.h.sz == map[lo + 27 := 16, lo + 43 := 16, lo + 59 := 96];
    var z := MallocAt(heap, 64, lo + 59);
    assert heap.h.sz == map[lo + 27 := 16, lo + 43 := 16, lo + 59 := 10, lo + 69 := 10, lo + 79 := 76];
    w := MallocAt(heap, 64, lo + 59);
  }

  // realloc(w, 72) loses the first five words of a 64-byte block: the block it finds
  // leaves a free block of five words in front, and the payload was copied there.
  method ReallocLosesWords(heap: Heap) returns (before: int, after: int)
    requires heap.Empty() && heap.lo + 155 <= heap.mem.Length
    modifies heap, heap.mem
    ensures before == 1 && after == 2
  {
    hide WF, Served, CanGrow, GrownTo, Allocated, Coalesced, NoAdjacent, SameBlocks, TooSmall, Realizable, FreedWords,
         Freed, Shift, NoRoom, AfterRealloc, AfterMalloc, WordsBeforeCopy;
    var lo := heap.lo;
    var w := Prepare(heap);
    ghost var m0, h0 := heap.mem[..], heap.h;
    ghost var x := heap.Free(lo + 27);
    FreedAlone(m0, h0, heap.h, lo + 27, x);
    assert !StrandsTiny(h0, lo + 27);
    ghost var h1 := heap.h;
    assert heap.h.sz == h0.sz && heap.h.live == {lo + 43, w, lo + 69};
    heap.Store(w, 0, 1);
    heap.Store(w, 5, 2);
    before := heap.mem[w];
    ghost var m2 := heap.mem[..];
    LastIs(m2, heap.h);
    assert !Stays(heap.h, w, 11, heap.mem.Length);
    var r := heap.Realloc(w, 72);
    MovedTo(m2, h1, Freed(h1, w), heap.h, lo, w, r, heap.mem.Length);
    after := heap.mem[r];
  }

  // A heap of one page in two halves of 64 words, the second allocated, in a memory
  // that has room for one page more.  realloc frees the block, extends the heap, finds
  // the whole of it and puts the new block where the old one was, behind a free block:
  // the payload is kept, as the copy did not reach it.
  method ReallocInPlace(heap: Heap) returns (before: int, after: int)
    requires heap.Empty() && heap.lo + 283 <= heap.mem.Length < heap.lo + 411
    modifies heap, heap.mem
    ensures before == after == 1
  {
    hide WF, Served, CanGrow, GrownTo, Allocated, Coalesced, NoAdjacent, SameBlocks, TooSmall, Moved, FitBlock, Freed,
         Shift, NoRoom, AfterRealloc, AfterMalloc, Found;
    var lo := heap.lo;
    var ok := heap.Init();
    var p := MallocAt(heap, 496, lo + 27);
    assert heap.h.sz == map[lo + 27 := 64, lo + 91 := 64];
    heap.Store(p, 0, 1);
    before := heap.mem[p];
    ghost var m0, h0 := heap.mem[..], heap.h;
    LastIs(m0, h0);
    assert h0.last == NULL;
    assert !Stays(h0, p, 192, heap.mem.Length);
    var r := heap.Realloc(p, 1520);
    ghost var freed := Freed(h0, p);
    HalvesMerge(m0, h0, freed, lo, p);
    ghost var m1 :| WF(m1, freed);
    BackInPlace(m1, freed, heap.h, lo, r, heap.mem.Length);
    PayloadSurvives(m0, WordsBeforeCopy(State(m0, h0), p, 192), heap.mem[..], h0, p, 192);
    after := heap.mem[r];
  }

  // The two halves become one free block.
  lemma HalvesMerge(m: seq<int>, h: Layout, freed: Layout, lo: int, p: int)
    requires WF(m, h) && h.out == {} && |h.lists| == NUM_FL && p == lo + 91
    requires h.sz == map[lo + 27 := 64, lo + 91 := 64] && h.brk == lo + 155 && h.live == {p}
    requires Realizable(freed) && Extendable(freed) && freed.out == {} &&
      exists x :: Coalesced(Filed(h, p), freed, p, x)
    ensures freed.sz == map[lo + 27 := 128] && freed.live == {} && freed.brk == lo + 155
    ensures freed.last == lo + 27 != NULL
  {
    hide WF, Filed;
    FiledSets(h, p);
    var x :| Coalesced(Filed(h, p), freed, p, x);
    assert Filed(h, p).sz[lo + 27] == 64;
    assert x == lo + 27;
    var m' :| WF(m', freed);
    FreeFacts(m', freed, x);
    EndIsLast(m', freed, x);
  }

  lemma BackInPlace(m: seq<int>, freed: Layout, h': Layout, lo: int, r: int, cap: int)
    requires WF(m, freed) && freed.out == {} && Extendable(freed) && lo + 283 <= cap
    requires freed.sz == map[lo + 27 := 128] && freed.live == {} && freed.brk == lo + 155
    requires freed.last == lo + 27 != NULL
    requires r == NULL <==> NoRoom(freed, 192, cap)
    requires r != NULL ==> Allocated(freed, h', 192, r)
    ensures r == lo + 91 && Found(freed, 192) == lo + 27 && Shift(freed, 192) == 64
  {
    FitFacts(m, freed, 192);
    hide WF;
    assert TooSmall(freed, 192) && Need(freed, 192) == 64;
    assert FitBlock(freed, 192) == lo + 27 && FitLayout(freed, 192).sz[lo + 27] == 256;
    ShiftIs(freed, 192);
  }

  lemma LastIs(m: seq<int>, h: Layout)
    requires WF(m, h)
    ensures Extendable(h) && h.last !in h.live
    ensures h.last != NULL ==> h.last in h.sz && h.last + h.sz[h.last] == h.brk
  {
    LastTagged(m, h);
    if h.last != NULL { LastFacts(m, h); } else { SetsOf(m, h); assert NULL !in h.sz; }
  }

  lemma FreedSame(m: seq<int>, h: Layout, freed: Layout, p: int)
    requires WF(m, h) && h.out == {} && |h.lists| == NUM_FL && p in h.live && p in h.sz
    requires p + h.sz[p] in h.sz ==> p + h.sz[p] in h.live
    requires forall q | q in h.sz && q + h.sz[q] == p :: q in h.live
    requires exists x :: Coalesced(Filed(h, p), freed, p, x)
    ensures freed.sz == h.sz && freed.live == h.live - {p} && freed.brk == h.brk
  {
    var x :| Coalesced(Filed(h, p), freed, p, x);
    FreedAlone(m, h, freed, p, x);
    FiledSets(h, p);
  }

  // Where that realloc goes.
  lemma MovedTo(m: seq<int>, h: Layout, freed: Layout, h': Layout, lo: int, w: int, r: int, cap: int)
    requires WF(m, h) && h.out == {} && |h.lists| == NUM_FL && w == lo + 59
    requires h.sz == map[lo + 27 := 16, lo + 43 := 16, lo + 59 := 10, lo + 69 := 10, lo + 79 := 76] && h.brk == lo + 155
    requires h.live == {lo + 43, w, lo + 69} && w in h.sz
    requires Realizable(freed) && Extendable(freed) && freed.out == {} &&
      exists x :: Coalesced(Filed(h, w), freed, w, x)
    requires if r == NULL then NoRoom(freed, 11, cap) else Allocated(freed, h', 11, r)
    ensures r == lo + 32 && FitBlock(freed, 11) == lo + 27 && Shift(freed, 11) == 5
  {
    hide WF, Coalesced;
    FreedSame(m, h, freed, w);
    assert OnlyFit(freed, lo + 27, 11);
    var m' :| WF(m', freed);
    OnlyFitIs(m', freed, lo + 27, 11);
    OnlyFitChosen(m', freed, lo + 27, 11);
    ShiftIs(freed, 11);
  }
}
