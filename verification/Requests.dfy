// What the answers of mm_malloc and mm_realloc come down to, said of the sizes of the
// blocks and of brk alone: which requests the heap can serve, how far it has to grow and
// how a block is cut.
module Requests {
  import opened Arith
  import opened HeapLayout
  import opened Blocks
  import opened HeapSteps
  import opened SizeClasses
  import opened Policy
  import opened HeapSpec
  import opened HeapFacts

  // k words are a whole number of pages, more than words, and no more than needed.
  predicate Pages(words: int, k: int) { k % 128 == 0 && words < k <= words + 128 }

  lemma RoundPageIs(words: int)
    ensures Pages(words, RoundPage(words))
    ensures forall k | Pages(words, k) :: k == RoundPage(words)
  {
    Quotient(words, 128);
    forall k | Pages(words, k) ensures k == RoundPage(words) {
      Quotient(k, 128);
    }
  }

  // mem_sbrk can give k words more at break b when memory ends at cap.
  predicate Available(k: int, b: int, cap: int) { 8 * k < 0x8000_0000 && b + k <= cap }

  // The words of the free block behind block p, and of the free block that ends at b; 0
  // if there is none.
  function FreeBehind(h: Layout, p: int): int
    requires p in h.sz
  {
    var e := p + h.sz[p];
    if e in h.sz && e !in h.live then h.sz[e] else 0
  }

  ghost function FreeBelow(h: Layout, b: int): int
  {
    if exists p :: p in h.sz && p !in h.live && p + h.sz[p] == b then
      var p :| p in h.sz && p !in h.live && p + h.sz[p] == b;
      h.sz[p]
    else 0
  }

  ghost predicate HasRoom(h: Layout, size: int)
  {
    exists p :: p in h.sz && p !in h.live && size <= h.sz[p]
  }

  // A request of size words at break b: a free block that is large enough serves it, and
  // otherwise the fewest pages that hold more than the words missing at the end of the
  // heap, if they are available.
  ghost predicate Served(h: Layout, b: int, size: int, cap: int, ok: bool, b': int)
  {
    if HasRoom(h, size) then ok && b' == b
    else exists k | Pages(size - FreeBelow(h, b), k) ::
      && (ok <==> Available(k, b, cap))
      && b' == if ok then b + k else b
  }

  // Block p, alone or with the free block behind it, ends the heap at b.
  predicate EndsHeap(h: Layout, p: int, b: int)
    requires p in h.sz
  {
    p + h.sz[p] + FreeBehind(h, p) == b
  }

  // Block p can have size words where it is: with the free block behind it, or with the
  // pages it still misses at the end of the heap.
  ghost predicate CanGrow(h: Layout, p: int, size: int, b: int, cap: int)
    requires p in h.sz
  {
    var missing := size - h.sz[p] - FreeBehind(h, p);
    missing <= 0 || (EndsHeap(h, p, b) && exists k | Pages(missing, k) :: Available(k, b, cap))
  }

  // brk after block p grew where it was.
  ghost predicate GrownTo(h: Layout, p: int, size: int, b: int, b': int)
    requires p in h.sz
  {
    var missing := size - h.sz[p] - FreeBehind(h, p);
    if missing <= 0 then b' == b else Pages(missing, b' - b)
  }

  // Block p stayed, perhaps grown: the first min(old, new) payload words are kept.
  ghost predicate StayedPut(s: State, t: State, p: int, size: int, r: int)
    requires p in s.h.sz && Extendable(s.h)
  {
    && r == p && Kept(StayLayout(s.h, p, size), t.h, p, StayEnd(s.h, p, size), size)
    && GrownTo(s.h, p, size, s.h.brk, t.h.brk) && p in t.h.sz && size <= t.h.sz[p]
    && KeptWords(s.m, t.m, p, p, Min(s.h.sz[p], t.h.sz[p]) - 2)
  }

  // Block p was freed, and its payload moved to the block malloc finds then, if any.
  ghost predicate MovedAway(s: State, t: State, p: int, size: int, cap: int, r: int)
    requires p in s.h.sz
  {
    var f := Freed(s.h, p);
    && Moving(s.h, p) && (r == NULL <==> NoRoom(f, size, cap)) && Served(f, s.h.brk, size, cap, r != NULL, t.h.brk)
    && if r == NULL then t.h == f else
         && Allocated(f, t.h, size, r) && r == MallocResult(f, size)
         && Moved(s.m, WordsBeforeCopy(s, p, size), t.m, s.h, p, r, Shift(f, size))
         && (Carried(s.h, p, size) ==> KeptWords(s.m, t.m, p, r, s.h.sz[p] - 2))
         && (Marker(s.m, p) ==> (KeptWords(s.m, t.m, p, r, s.h.sz[p] - 2) <==> Carried(s.h, p, size)))
  }

  // What realloc of block p for size words made of the heap s, and its answer.  Whether
  // the block stays depends on sizes and brk alone.
  ghost predicate Resized(s: State, t: State, p: int, size: int, cap: int, r: int)
    requires p in s.h.sz && Extendable(s.h)
  {
    && t == AfterRealloc(s, p, size, cap) && r == ReallocResult(s.h, p, size, cap)
    && (Stays(s.h, p, size, cap) <==> CanGrow(s.h, p, size, s.h.brk, cap))
    && if Stays(s.h, p, size, cap) then StayedPut(s, t, p, size, r) else MovedAway(s, t, p, size, cap, r)
  }

  // ---------------------------------------------------------------------- proofs

  lemma FreeBelowIs(m: seq<int>, h: Layout)
    requires WF(m, h) && h.out == {}
    ensures FreeBelow(h, h.brk) == if h.last == NULL then 0 else h.sz[h.last]
  {
    SetsOf(m, h);
    forall p | p in h.sz && p !in h.live && p + h.sz[p] == h.brk ensures p == h.last {
      if p != h.last { BeforeEnd(h, p); }
    }
    if h.last != NULL {
      LastFacts(m, h);
      assert h.last in h.sz && h.last !in h.live && h.last + h.sz[h.last] == h.brk;
    }
  }

  lemma MallocServed(m: seq<int>, h: Layout, size: int, cap: int)
    requires WF(m, h) && h.out == {} && 3 <= size
    ensures Extendable(h)
    ensures Served(h, h.brk, size, cap, !NoRoom(h, size, cap),
              if NoRoom(h, size, cap) then h.brk else FitLayout(h, size).brk)
  {
    FitFacts(m, h, size);
    FreeBelowIs(m, h);
    RoundPageIs(Need(h, size));
    hide WF, Fit, FreeBelow;
    if HasRoom(h, size) {
      var p :| p in h.sz && p !in h.live && size <= h.sz[p];
      assert !TooSmall(h, size);
    } else {
      assert TooSmall(h, size);
      assert size - FreeBelow(h, h.brk) == Need(h, size);
      var k := RoundPage(Need(h, size));
      assert Pages(size - FreeBelow(h, h.brk), k);
      assert NoRoom(h, size, cap) <==> !Available(k, h.brk, cap);
      assert FitLayout(h, size).brk == h.brk + k;
    }
  }

  lemma ReallocGrows(m: seq<int>, h: Layout, p: int, size: int, cap: int)
    requires WF(m, h) && h.out == {} && h.tiny == {} && p in h.live && p in h.sz && 3 <= size
    ensures Extendable(h)
    ensures Stays(h, p, size, cap) <==> CanGrow(h, p, size, h.brk, cap)
    ensures Stays(h, p, size, cap) ==> GrownTo(h, p, size, h.brk, StayLayout(h, p, size).brk)
  {
    NextHeader(m, h, p);
    SetsOf(m, h);
    var e, missing := End(h, p), size - h.sz[p] - FreeBehind(h, p);
    if e in h.sz && e !in h.live && e != h.last { BeforeEnd(h, e); }
    hide WF;
    assert AtEnd(h, p) <==> EndsHeap(h, p, h.brk);
    if AtEnd(h, p) {
      assert missing == Missing(h, p, size);
      RoundPageIs(missing);
      var k := RoundPage(missing);
      assert Pages(missing, k);
      assert CanExtend(h, p, size, cap) <==> Available(k, h.brk, cap);
    }
  }

  lemma StayResized(s: State, t: State, p: int, size: int, cap: int)
    requires WF(s.m, s.h) && s.h.out == {} && s.h.tiny == {} && p in s.h.live && p in s.h.sz && 3 <= size
    requires Extendable(s.h) && Stays(s.h, p, size, cap) && t == AfterRealloc(s, p, size, cap)
    requires Kept(StayLayout(s.h, p, size), t.h, p, StayEnd(s.h, p, size), size)
    requires p in t.h.sz && KeptWords(s.m, t.m, p, p, Min(s.h.sz[p], t.h.sz[p]) - 2)
    ensures Resized(s, t, p, size, cap, p)
  {
    hide WF, Stays, Kept, KeptWords, AfterRealloc, CanGrow, GrownTo, StayLayout, StayEnd;
    ReallocGrows(s.m, s.h, p, size, cap);
    KeptLive(StayLayout(s.h, p, size), t.h, p, StayEnd(s.h, p, size), size);
  }

  lemma ShrinkResized(s: State, t: State, p: int, size: int, cap: int)
    requires WF(s.m, s.h) && s.h.out == {} && s.h.tiny == {} && p in s.h.live && p in s.h.sz && 3 <= size
    requires Extendable(s.h) && size <= s.h.sz[p] && t == AfterShrink(s, p, size)
    requires Kept(s.h, t.h, p, End(s.h, p), size)
    requires p in t.h.sz && KeptWords(s.m, t.m, p, p, Min(s.h.sz[p], t.h.sz[p]) - 2)
    ensures Resized(s, t, p, size, cap, p) && Stays(s.h, p, size, cap)
  {
    hide WF, Kept, KeptWords, AfterShrink, Resized;
    StayResized(s, t, p, size, cap);
  }

  lemma SwallowResized(s: State, t: State, p: int, size: int, cap: int)
    requires WF(s.m, s.h) && s.h.out == {} && s.h.tiny == {} && p in s.h.live && p in s.h.sz && 3 <= size
    requires Extendable(s.h) && s.h.sz[p] < size && CanAbsorb(s.h, p, size) && t == AfterSwallow(s, p, size)
    requires Kept(s.h, t.h, p, End(s.h, End(s.h, p)), size)
    requires p in t.h.sz && KeptWords(s.m, t.m, p, p, Min(s.h.sz[p], t.h.sz[p]) - 2)
    ensures Resized(s, t, p, size, cap, p) && Stays(s.h, p, size, cap)
  {
    hide WF, Kept, KeptWords, AfterSwallow, Resized;
    StayResized(s, t, p, size, cap);
  }

  lemma GrowResized(s: State, t: State, p: int, size: int, cap: int)
    requires WF(s.m, s.h) && s.h.out == {} && s.h.tiny == {} && p in s.h.live && p in s.h.sz && 3 <= size
    requires Extendable(s.h) && s.h.sz[p] < size && !CanAbsorb(s.h, p, size) && CanExtend(s.h, p, size, cap)
    requires var k := RoundPage(Missing(s.h, p, size));
      Kept(Extended(s.h, k), t.h, p, s.h.brk + k, size) && t == AfterSwallow(AfterExtend(s, k), p, size)
    requires p in t.h.sz && KeptWords(s.m, t.m, p, p, Min(s.h.sz[p], t.h.sz[p]) - 2)
    ensures Resized(s, t, p, size, cap, p) && Stays(s.h, p, size, cap)
  {
    hide WF, Kept, KeptWords, AfterSwallow, AfterExtend, Extended, Resized;
    StayResized(s, t, p, size, cap);
  }

  lemma MoveResized(s: State, t: State, p: int, size: int, cap: int, r: int)
    requires WF(s.m, s.h) && s.h.out == {} && s.h.tiny == {} && p in s.h.live && p in s.h.sz && 3 <= size
    requires Extendable(s.h) && s.h.sz[p] < size && !CanAbsorb(s.h, p, size) && !CanExtend(s.h, p, size, cap)
    requires 3 <= s.h.sz[p] && Moving(s.h, p)
    requires var f := Freed(s.h, p);
      && (r == NULL <==> NoRoom(f, size, cap)) && Served(f, s.h.brk, size, cap, r != NULL, t.h.brk)
      && if r == NULL then t.h == f && t == AfterFree(s, p) else
           && Allocated(f, t.h, size, r) && r == MallocResult(f, size) && t == AfterMove(s, p, size)
           && Moved(s.m, WordsBeforeCopy(s, p, size), t.m, s.h, p, r, Shift(f, size))
    ensures Resized(s, t, p, size, cap, r) && !Stays(s.h, p, size, cap)
  {
    hide WF, KeptWords, AfterFree, AfterMove, CanAbsorb, CanExtend, CanGrow, Served, NoRoom, Moving, Allocated, Moved,
         WordsBeforeCopy, Shift, Freed, Carried, Marker, MallocResult;
    ReallocGrows(s.m, s.h, p, size, cap);
    if r != NULL { PayloadSurvives(s.m, WordsBeforeCopy(s, p, size), t.m, s.h, p, size); }
  }

  // How place cuts a block of n words for a request of size words.  In front goes the
  // smaller of size and the spare words, if that is more than 4 words and a front part is
  // wanted; behind, what is left if that is at least 4 words; nothing else changes.
  lemma CutsBlock(sz: map<int, int>, p: int, n: int, size: int, withOffset: bool)
    requires p in sz && sz[p] == n && 3 <= size <= n
    ensures var z, off := Placed(sz, p, n, size, withOffset), Offset(n, size, withOffset);
      && (off == 0 || off == size || off == n - size) && off <= size && off <= n - size
      && (off == 0 <==> !withOffset || size <= 4 || n - size <= 4)
      && p + off in z && size <= z[p + off] < size + 4
      && var rest := n - off - z[p + off];
         && (rest == 0 || (4 <= rest && z[p + off] == size))
         && z.Keys == sz.Keys + {p + off} + (if rest > 0 then {p + off + size} else {})
         && (off > 0 ==> z[p] == off) && (rest > 0 ==> z[p + off + size] == rest)
         && forall q | q in sz && !(p <= q < p + n) :: z[q] == sz[q]
  {
  }
}
