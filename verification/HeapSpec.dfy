// The operations of malloclab-handout/mm.c as functions on the words of the heap and on
// the layout they encode, free lists included.  Every function is total; what it does
// off the heap is of no interest.
module HeapSpec {
  import opened HeapLayout
  import opened FreeLists
  import opened Blocks
  import opened HeapSteps
  import opened Policy

  datatype State = State(m: seq<int>, h: Layout)

  // ------------------------------------------------------------------ small steps

  function Retagged(s: State, p: int, n: int, alloc: int): State
  {
    s.(m := if 1 <= p && 2 <= n && p + n - 1 <= |s.m| then Tag(s.m, p, n, alloc) else s.m)
  }

  // Block p leaves the hands of its client.
  function Returned(s: State, p: int): State { s.(h := Held(s.h, p)) }

  // Block p goes to a client.
  function Handed(s: State, p: int): State { s.(h := Released(s.h, p)) }

  // Held block p and its successor count as one.
  function Absorbed(s: State, p: int): State
  {
    s.(h := if p in s.h.sz && p + s.h.sz[p] in s.h.sz then Absorb(s.h, p) else s.h)
  }

  function Cut(s: State, p: int, k: int): State { s.(h := if p in s.h.sz then SplitAt(s.h, p, k) else s.h) }

  function Unlinked(m: seq<int>, prev: int, next: int): seq<int>
  {
    if 0 <= prev && prev + 1 < |m| && 0 <= next < |m| then Unlink(m, prev, next) else m
  }

  function LinkedIn(m: seq<int>, pro: int, next: int, p: int): seq<int>
  {
    if 0 <= pro && pro + 1 < |m| && 0 <= next < |m| && 0 <= p && p + 1 < |m| then LinkIn(m, pro, next, p) else m
  }

  // remove_from_free_list
  function AfterRemove(s: State, p: int): State
  {
    if p !in s.h.sz || |s.h.lists| != NUM_FL then s
    else State(if p == s.h.last then s.m else Unlinked(s.m, Word(s.m, p) / 8, Word(s.m, p + 1) / 8), Unindexed(s.h, p))
  }

  // add_to_free_list
  function AfterAdd(s: State, p: int): State
  {
    if p !in s.h.sz || |s.h.lists| != NUM_FL then s
    else
      var pro := Pro(s.h.lo, ClassOf(s.h.sz[p]));
      State(if p + s.h.sz[p] == s.h.brk then s.m else LinkedIn(s.m, pro, Word(s.m, pro + 1) / 8, p), Added(s.h, p))
  }

  // The end of every case of coalesce.
  function Refiled(s: State, p: int): State
  {
    if p in s.h.sz then AfterAdd(Retagged(s, p, s.h.sz[p], 0), p) else s
  }

  // --------------------------------------------------------------------- coalesce

  // The block that ends where p starts, or NULL.
  ghost function Before(h: Layout, p: int): int
  {
    if exists q :: q in h.sz && q + h.sz[q] == p then
      var q :| q in h.sz && q + h.sz[q] == p;
      q
    else NULL
  }

  lemma BeforeIs(h: Layout, p: int, q: int)
    requires q != NULL ==> q in h.sz && q + h.sz[q] == p
    requires forall r | r in h.sz && r + h.sz[r] == p :: q != NULL && r == q
    ensures Before(h, p) == q
  {
  }

  function Behind(h: Layout, p: int): int { if p in h.sz then p + h.sz[p] else NULL }

  predicate IsFree(h: Layout, p: int) { p in h.sz && p !in h.live }

  function WithNext(s: State, p: int): State
  {
    Refiled(Absorbed(AfterRemove(AfterRemove(s, p), Behind(s.h, p)), p), p)
  }

  function WithPrev(s: State, q: int, p: int): State
  {
    Refiled(Absorbed(AfterRemove(AfterRemove(s, p), q), q), q)
  }

  function WithBoth(s: State, q: int, p: int): State
  {
    Refiled(Absorbed(Absorbed(AfterRemove(AfterRemove(AfterRemove(s, p), q), Behind(s.h, p)), q), q), q)
  }

  ghost function AfterCoalesce(s: State, p: int): State
  {
    var q, e := Before(s.h, p), Behind(s.h, p);
    if IsFree(s.h, q) then (if IsFree(s.h, e) then WithBoth(s, q, p) else WithPrev(s, q, p))
    else if IsFree(s.h, e) then WithNext(s, p)
    else s
  }

  // mm_free
  ghost function AfterFree(s: State, p: int): State
  {
    if p in s.h.sz then AfterCoalesce(AfterAdd(Retagged(Returned(s, p), p, s.h.sz[p], 0), p), p) else s
  }

  // ------------------------------------------------------------ find_fit and place

  function AfterExtend(s: State, k: int): State
  {
    if !Extendable(s.h) then s
    else
      var p, n := NewBlock(s.h), NewSize(s.h, k);
      State(if 0 < p && 0 < n && p + n <= |s.m| && 2 <= p + n then GrownWords(s.m, p, n) else s.m, Extended(s.h, k))
  }

  ghost function AfterFit(s: State, size: int): State
  {
    if !Extendable(s.h) || Fit(s.h, size) != NULL then s else AfterExtend(s, RoundPage(Need(s.h, size)))
  }

  // The block find_fit returns.
  ghost function Found(h: Layout, size: int): int { if Extendable(h) then FitBlock(h, size) else NULL }

  // place, with its three parts: a free block in front, and the allocated block alone
  // or with a free remainder.
  function AfterFront(s: State, p: int, k: int): State { AfterAdd(Cut(Retagged(s, p, k, 0), p, k), p) }

  function AfterWhole(s: State, p: int, n: int): State { Handed(Retagged(s, p, n, 1), p) }

  function AfterSplit(s: State, p: int, k: int, rest: int): State
  {
    Handed(AfterAdd(Cut(Retagged(Retagged(s, p, k, 1), p + k, rest, 0), p, k), p + k), p)
  }

  function AfterPlace(s: State, p: int, n: int, size: int, withOffset: bool): State
  {
    var off := Offset(n, size, withOffset);
    var s1 := if off > 0 then AfterFront(s, p, off) else s;
    if n - size - off < 4 then AfterWhole(s1, p + off, n - off) else AfterSplit(s1, p + off, size, n - size - off)
  }

  function SizeAt(h: Layout, p: int): int { if p in h.sz then h.sz[p] else 0 }

  // How far behind the start of the block it found place puts the new one.
  ghost function Shift(h: Layout, size: int): int
  {
    Offset(SizeAt(AfterFit(State([], h), size).h, Found(h, size)), size, true)
  }

  lemma ShiftIs(h: Layout, size: int)
    requires Extendable(h) && FitBlock(h, size) in FitLayout(h, size).sz
    ensures Found(h, size) == FitBlock(h, size)
    ensures Shift(h, size) == Offset(FitLayout(h, size).sz[FitBlock(h, size)], size, true)
    ensures forall m :: AfterFit(State(m, h), size).h == FitLayout(h, size)
  {
  }

  // ---------------------------------------------------------------------- mm_malloc

  // mm_malloc finds no room for a request of size words under a limit of cap words.
  ghost predicate NoRoom(h: Layout, size: int, cap: int)
  {
    Extendable(h) && TooSmall(h, size) && Exhausted(RoundPage(Need(h, size)), h.brk, cap)
  }

  // Otherwise: the heap and the block it returns.
  ghost function AfterMalloc(s: State, size: int): State
  {
    var f, b := AfterFit(s, size), Found(s.h, size);
    AfterPlace(AfterRemove(f, b), b, SizeAt(f.h, b), size, true)
  }

  ghost function MallocResult(h: Layout, size: int): int { Found(h, size) + Shift(h, size) }

  // --------------------------------------------------------------------- mm_realloc

  function AfterShrink(s: State, p: int, size: int): State
  {
    AfterPlace(Returned(s, p), p, SizeAt(s.h, p), size, false)
  }

  // Block p with the free block behind it, both taken.
  function Annexed(s: State, p: int): State
  {
    var n := SizeAt(s.h, p) + SizeAt(s.h, Behind(s.h, p));
    Retagged(Absorbed(Returned(AfterRemove(s, Behind(s.h, p)), p), p), p, n, 0)
  }

  function AfterSwallow(s: State, p: int, size: int): State
  {
    AfterPlace(Annexed(s, p), p, SizeAt(s.h, p) + SizeAt(s.h, Behind(s.h, p)), size, false)
  }

  // The copy of k payload words from p to b, of which the first two were saved.
  function Copied(m: seq<int>, b: int, p: int, k: int, w0: int, w1: int): seq<int>
  {
    seq(|m|, i requires 0 <= i < |m| =>
      if i == b then w0 else if i == b + 1 then w1 else if b + 2 <= i < b + k then Word(m, p + i - b) else m[i])
  }

  lemma CopiedAt(m: seq<int>, b: int, p: int, k: int, w0: int, w1: int, j: int)
    requires 0 <= j < |m|
    ensures |Copied(m, b, p, k, w0, w1)| == |m|
    ensures Copied(m, b, p, k, w0, w1)[j] ==
      if j == b then w0 else if j == b + 1 then w1 else if b + 2 <= j < b + k then Word(m, p + j - b) else m[j]
  {
  }

  ghost function AfterMove(s: State, p: int, size: int): State
  {
    var freed := AfterFree(s, p);
    var f, b := AfterFit(freed, size), Found(freed.h, size);
    var s1 := AfterRemove(f, b);
    AfterPlace(State(Copied(s1.m, b, p, SizeAt(s.h, p) - 2, Word(s.m, p), Word(s.m, p + 1)), s1.h), b,
      SizeAt(f.h, b), size, true)
  }

  // The layout mm_free leaves: the words play no part in it.
  ghost function Freed(h: Layout, p: int): Layout { AfterFree(State([], h), p).h }

  lemma StepOnly(s: State, t: State, p: int)
    requires s.h == t.h
    ensures AfterRemove(s, p).h == AfterRemove(t, p).h && AfterAdd(s, p).h == AfterAdd(t, p).h
    ensures Refiled(s, p).h == Refiled(t, p).h && Absorbed(s, p).h == Absorbed(t, p).h
  {
  }

  lemma JoinOnly(s: State, t: State, p: int, q: int)
    requires s.h == t.h
    ensures Refiled(Absorbed(AfterRemove(AfterRemove(s, p), q), p), p).h ==
      Refiled(Absorbed(AfterRemove(AfterRemove(t, p), q), p), p).h
    ensures Refiled(Absorbed(AfterRemove(AfterRemove(s, p), q), q), q).h ==
      Refiled(Absorbed(AfterRemove(AfterRemove(t, p), q), q), q).h
  {
    hide AfterRemove, AfterAdd, Refiled, Absorbed;
    StepOnly(s, t, p);
    var s1, t1 := AfterRemove(s, p), AfterRemove(t, p);
    StepOnly(s1, t1, q);
    var s2, t2 := AfterRemove(s1, q), AfterRemove(t1, q);
    StepOnly(s2, t2, p);
    StepOnly(s2, t2, q);
    StepOnly(Absorbed(s2, p), Absorbed(t2, p), p);
    StepOnly(Absorbed(s2, q), Absorbed(t2, q), q);
  }

  lemma BothOnly(s: State, t: State, q: int, p: int)
    requires s.h == t.h
    ensures WithBoth(s, q, p).h == WithBoth(t, q, p).h
  {
    hide AfterRemove, AfterAdd, Refiled, Absorbed;
    StepOnly(s, t, p);
    var s1, t1 := AfterRemove(s, p), AfterRemove(t, p);
    StepOnly(s1, t1, q);
    var s2, t2 := AfterRemove(s1, q), AfterRemove(t1, q);
    var e := Behind(s.h, p);
    StepOnly(s2, t2, e);
    var s3, t3 := AfterRemove(s2, e), AfterRemove(t2, e);
    StepOnly(s3, t3, q);
    StepOnly(Absorbed(s3, q), Absorbed(t3, q), q);
    StepOnly(Absorbed(Absorbed(s3, q), q), Absorbed(Absorbed(t3, q), q), q);
  }

  lemma FreedOnly(s: State, p: int)
    ensures AfterFree(s, p).h == Freed(s.h, p)
  {
    hide AfterAdd, AfterRemove, Refiled, Absorbed, WithBoth;
    if p in s.h.sz {
      var t := State([], s.h);
      var s1, t1 := Retagged(Returned(s, p), p, s.h.sz[p], 0), Retagged(Returned(t, p), p, s.h.sz[p], 0);
      StepOnly(s1, t1, p);
      var s2, t2 := AfterAdd(s1, p), AfterAdd(t1, p);
      var q := Before(s2.h, p);
      JoinOnly(s2, t2, p, Behind(s2.h, p));
      JoinOnly(s2, t2, p, q);
      BothOnly(s2, t2, q, p);
    }
  }

  // What mm_free made of block p on the moving path: all other blocks are as they were.
  ghost predicate Moving(h: Layout, p: int)
  {
    var f := Freed(h, p);
    && Extendable(f) && Realizable(f) && f.out == {} && f.live == h.live - {p}
    && |h.lists| == NUM_FL && p in h.sz && exists x :: Coalesced(Filed(h, p), f, p, x)
  }

  ghost predicate CannotMove(h: Layout, p: int, size: int, cap: int)
  {
    NoRoom(Freed(h, p), size, cap)
  }

  // mm_realloc of the allocated block p for a request of size words.
  ghost function AfterRealloc(s: State, p: int, size: int, cap: int): State
  {
    if p !in s.h.sz || !Extendable(s.h) then s
    else if size <= s.h.sz[p] then AfterShrink(s, p, size)
    else if CanAbsorb(s.h, p, size) then AfterSwallow(s, p, size)
    else if CanExtend(s.h, p, size, cap) then AfterSwallow(AfterExtend(s, RoundPage(Missing(s.h, p, size))), p, size)
    else if CannotMove(s.h, p, size, cap) then AfterFree(s, p)
    else AfterMove(s, p, size)
  }

  // p has to go elsewhere.
  ghost predicate Leaves(h: Layout, p: int, size: int, cap: int)
  {
    p in h.sz && Extendable(h) && !Stays(h, p, size, cap)
  }

  ghost function ReallocResult(h: Layout, p: int, size: int, cap: int): int
  {
    if !Leaves(h, p, size, cap) then p
    else if CannotMove(h, p, size, cap) then NULL
    else MallocResult(Freed(h, p), size)
  }

  // The words of the heap just before the payload is copied.
  ghost function WordsBeforeCopy(s: State, p: int, size: int): seq<int>
  {
    AfterFit(AfterFree(s, p), size).m
  }

  // ------------------------------------------------------- what a moved payload keeps

  // A payload that leaves block p arrives whole: place leaves nothing in front of the
  // new block, or the new block is where the old one was, at the end of the heap, and
  // the copy ends below it.
  ghost predicate Carried(h: Layout, p: int, size: int)
    requires p in h.sz
  {
    var f := Freed(h, p);
    var off := Shift(f, size);
    off == 0 || (Found(f, size) + off == p && h.sz[p] - 2 <= off && End(h, p) == h.brk)
  }

  // realloc keeps the payload it moves, whatever it is, exactly when it is carried.
  lemma PayloadSurvives(m: seq<int>, words: seq<int>, m': seq<int>, h: Layout, p: int, size: int)
    requires p in h.sz && 3 <= h.sz[p]
    requires var f := Freed(h, p); Moved(m, words, m', h, p, MallocResult(f, size), Shift(f, size))
    ensures var r := MallocResult(Freed(h, p), size);
      && (Carried(h, p, size) ==> KeptWords(m, m', p, r, h.sz[p] - 2))
      && (Marker(m, p) ==> (KeptWords(m, m', p, r, h.sz[p] - 2) <==> Carried(h, p, size)))
      && (Marker(m, p) ==> (0 <= r < |m'| && 0 <= p < |m|) && (m'[r] == m[p] <==> Carried(h, p, size)))
  {
    hide Freed, Shift, Found;
    var f, k := Freed(h, p), h.sz[p] - 2;
    var r, off := MallocResult(f, size), Shift(f, size);
    assert m'[r] == Arrived(m, words, p, k, r, off, r);
    if Carried(h, p, size) {
      assert forall i | r <= i < r + k :: m'[i] == m[p + i - r];
    }
  }
}
