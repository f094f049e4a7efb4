// Which block malloc uses, what it makes of it, and what that keeps: the choices of
// find_fit and place as functions of the block structure.
module Policy {
  import opened HeapLayout
  import opened Blocks
  import opened HeapSteps
  import opened SizeClasses
  import opened HeapFacts

  // ROUND_PAGE, in words.
  function RoundPage(words: int): int { (words / 128 + 1) * 128 }

  // A block that malloc may use without extending the heap, as find_fit picks it.
  ghost function Fit(h: Layout, size: int): int
    requires Extendable(h)
  {
    var f := FitFrom(h.lists, h.sz, size, ClassOf(size));
    if f != NULL then f else if h.last != NULL && h.sz[h.last] >= size then h.last else NULL
  }

  // The words find_fit asks for beyond the last free block.
  function Need(h: Layout, size: int): int
    requires Extendable(h)
  {
    if h.last == NULL then size else size - h.sz[h.last]
  }

  // Every free block is smaller than size words.
  ghost predicate TooSmall(h: Layout, size: int)
  {
    forall p | p in h.sz && p !in h.live :: h.sz[p] < size
  }

  // The heap and the block find_fit ends with.
  ghost function FitLayout(h: Layout, size: int): Layout
    requires Extendable(h)
  {
    if Fit(h, size) != NULL then h else Extended(h, RoundPage(Need(h, size)))
  }

  ghost function FitBlock(h: Layout, size: int): int
    requires Extendable(h)
  {
    if Fit(h, size) != NULL then Fit(h, size) else NewBlock(h)
  }

  // find_fit falls back on extending the heap exactly when no free block of the whole
  // heap would do, and what it returns is free and large enough.
  lemma FitFacts(m: seq<int>, h: Layout, size: int)
    requires WF(m, h) && h.out == {} && 3 <= size
    ensures Extendable(h)
    ensures Fit(h, size) == NULL <==> TooSmall(h, size)
    ensures Fit(h, size) == NULL ==> 0 < Need(h, size)
    ensures var h', b := FitLayout(h, size), FitBlock(h, size);
      0 < b && (3 < size ==> b !in h.tiny) && b in h'.sz && b !in h'.live && size <= h'.sz[b] && h'.tiny == h.tiny &&
        h'.live == h.live
      && forall q | q in h.live :: q in h.sz && q in h'.sz && h'.sz[q] == h.sz[q]
  {
    SearchIsExhaustive(h, size);
    LastTagged(m, h);
    SetsOf(m, h);
    assert h.brk !in h.sz && 0 < h.brk;
    assert NULL !in h.sz;
  }

  // h' is h after a request of size words got block r: the block find_fit chose is
  // split as place does, and nothing else changed hands.
  ghost predicate Allocated(h: Layout, h': Layout, size: int, r: int)
    requires Extendable(h)
  {
    var f, b := FitLayout(h, size), FitBlock(h, size);
    && b in f.sz && b !in h.live && size <= f.sz[b]
    && r == b + Offset(f.sz[b], size, true) && r !in h.live
    && h'.sz == Placed(f.sz, b, f.sz[b], size, true)
    && h'.live == h.live + {r} && r in h'.sz && size <= h'.sz[r] && h'.brk == f.brk
    && forall q | q in h.live :: q in h.sz && q in h'.sz && h'.sz[q] == h.sz[q]
  }

  // ------------------------------------------------------ no two free neighbours

  ghost predicate Calm(h: Layout, p: int)
    requires p in h.sz
  {
    p in h.live || p + h.sz[p] !in h.sz || p + h.sz[p] in h.live
  }

  ghost predicate NoAdjacent(h: Layout)
  {
    forall p {:trigger Calm(h, p)} | p in h.sz :: Calm(h, p)
  }

  lemma ExtendedNoAdjacent(h: Layout, k: int)
    requires Tiled(h) && Indexed(h) && h.out == {} && NoAdjacent(h) && 3 <= k && Extendable(h)
    ensures NoAdjacent(Extended(h, k))
  {
    var h' := Extended(h, k);
    forall p | p in h'.sz ensures Calm(h', p) {
      if p in h.sz && p != h.last {
        assert Calm(h, p);
        if p !in h.live { BeforeEnd(h, p); }
      }
    }
  }

  lemma BeforeEnd(h: Layout, p: int)
    requires Indexed(h) && h.out == {} && p in h.sz && p !in h.live && p != h.last
    ensures p + h.sz[p] < h.brk
  {
    var k := ClassOf(h.sz[p]);
    var i :| 0 <= i < |h.lists[k]| && h.lists[k][i] == p;
    assert ListedAt(h, h.lists[k][i], k);
  }

  // Splitting a free block around an allocated one.
  lemma PlacedNoAdjacent(h: Layout, h': Layout, p: int, size: int)
    requires Tiled(h) && NoAdjacent(h) && p in h.sz && p !in h.live && 3 <= size <= h.sz[p]
    requires h'.sz == Placed(h.sz, p, h.sz[p], size, true)
    requires h'.live == h.live + {p + Offset(h.sz[p], size, true)}
    ensures NoAdjacent(h')
  {
    var n := h.sz[p];
    var off := Offset(n, size, true);
    var t := Taken(n, size, off);
    assert Calm(h, p);
    forall x | x in h'.sz ensures Calm(h', x) {
      if x != p && x != p + off && x != p + off + t {
        assert x in h.sz && h'.sz[x] == h.sz[x] && Calm(h, x);
        OtherEnd(h, p, x);
      }
    }
  }

  lemma OtherEnd(h: Layout, p: int, x: int)
    requires Tiled(h) && p in h.sz && x in h.sz && x != p
    ensures !(p < x + h.sz[x] <= p + h.sz[p]) && !(p < x < p + h.sz[p])
  {
    if x < p { InOrder(h, x, p); } else { InOrder(h, p, x); }
  }

  lemma CoalescedNoAdjacent(h: Layout, h': Layout, p: int, r: int)
    requires Tiled(h) && p in h.live && forall q | q in h.live :: q in h.sz
    requires NoAdjacent(h) && |h.lists| == NUM_FL && h.out == {}
    requires Coalesced(Filed(h, p), h', p, r)
    ensures NoAdjacent(h')
  {
    hide Filed;
    FiledSets(h, p);
    var e := r + h'.sz[r];
    forall x | x in h'.sz ensures Calm(h', x) {
      assert x in h.sz && Calm(h, x);
      if x == r {
        if p + h.sz[p] in h.sz { assert Calm(h, p + h.sz[p]); }
      } else {
        assert h'.sz[x] == h.sz[x] && x != p;
        if x + h.sz[x] == r && r != p { assert Calm(h, x); }
      }
    }
  }

  // ------------------------------------------------------------ malloc as a whole

  lemma FitNoAdjacent(m: seq<int>, h: Layout, size: int)
    requires WF(m, h) && h.out == {} && 3 <= size && NoAdjacent(h) && Extendable(h)
    ensures NoAdjacent(FitLayout(h, size))
  {
    FitFacts(m, h, size);
    if Fit(h, size) == NULL {
      ExtendedNoAdjacent(h, RoundPage(Need(h, size)));
    }
  }

  lemma AllocatedFacts(m: seq<int>, h: Layout, m1: seq<int>, h': Layout, size: int, r: int)
    requires WF(m, h) && h.out == {} && 3 <= size && Extendable(h)
    requires var f, b := FitLayout(h, size), FitBlock(h, size);
      && WF(m1, f) && b in f.sz && h'.sz == Placed(f.sz, b, f.sz[b], size, true)
      && r == b + Offset(f.sz[b], size, true)
      && h'.live == f.live + {r} && h'.brk == f.brk
    ensures Allocated(h, h', size, r) && FitBlock(h, size) <= r && 0 < r
  {
    hide WF, Fit, FitLayout, FitBlock;
    FitFacts(m, h, size);
    TiledOf(m1, FitLayout(h, size));
    SetsOf(m1, FitLayout(h, size));
    var f, b := FitLayout(h, size), FitBlock(h, size);
    forall q | q in h.live ensures q in h'.sz && h'.sz[q] == h.sz[q] && q != r {
      OtherEnd(f, b, q);
    }
  }

  lemma AllocatedSets(h: Layout, h': Layout, size: int, r: int)
    requires Extendable(h) && Allocated(h, h', size, r)
    ensures r !in h.live && h'.live == h.live + {r} && r in h'.sz && size <= h'.sz[r]
    ensures forall q | q in h.live :: q in h.sz && q in h'.sz && h'.sz[q] == h.sz[q]
  {
  }

  lemma AllocatedNoAdjacent(m: seq<int>, h: Layout, m1: seq<int>, h': Layout, size: int, r: int)
    requires WF(m, h) && h.out == {} && 3 <= size && Extendable(h) && NoAdjacent(h)
    requires WF(m1, FitLayout(h, size)) && Allocated(h, h', size, r)
    ensures NoAdjacent(h')
  {
    FitFacts(m, h, size);
    FitNoAdjacent(m, h, size);
    TiledOf(m1, FitLayout(h, size));
    hide WF, NoAdjacent, Placed, Fit;
    PlacedNoAdjacent(FitLayout(h, size), h', FitBlock(h, size), size);
  }

  // ------------------------------------------------------------- free and realloc

  // The free block r of h' covers all of the block p that was freed in h.
  ghost predicate SpansFreed(h: Layout, h': Layout, p: int, r: int)
  {
    && p in h.sz && r in h'.sz && r !in h'.live && r <= p && p + h.sz[p] <= r + h'.sz[r]
    && forall q | q in h'.live :: q in h.sz && q in h'.sz && h'.sz[q] == h.sz[q]
  }

  lemma FreedFacts(m: seq<int>, h: Layout, m': seq<int>, h': Layout, p: int, r: int)
    requires WF(m, h) && h.out == {} && p in h.live && |h.lists| == NUM_FL && p in h.sz
    requires Coalesced(Filed(h, p), h', p, r) && WF(m', h')
    ensures NoAdjacent(h) ==> NoAdjacent(h')
    ensures SpansFreed(h, h', p, r)
  {
    SetsOf(m, h);
    SetsOf(m', h');
    FiledSets(h, p);
    if NoAdjacent(h) {
      CoalescedNoAdjacent(h, h', p, r);
    }
    assert 3 <= h.sz[r];
    if p + h.sz[p] in h.sz { assert 3 <= h.sz[p + h.sz[p]]; }
  }

  // Some words encode h.
  ghost predicate Realizable(h: Layout)
  {
    exists m: seq<int> :: WF(m, h)
  }

  // A freed block whose neighbours are allocated stays on its own.
  lemma FreedAlone(m: seq<int>, h: Layout, h': Layout, p: int, r: int)
    requires WF(m, h) && h.out == {} && |h.lists| == NUM_FL && p in h.live && p in h.sz
    requires Coalesced(Filed(h, p), h', p, r)
    requires p + h.sz[p] in h.sz ==> p + h.sz[p] in h.live
    requires forall q | q in h.sz && q + h.sz[q] == p :: q in h.live
    ensures h'.sz == h.sz && r == p
  {
    FiledSets(h, p);
    SplitsNothing(m, h, p);
    SetsOf(m, h);
    LiveFacts(m, h, p);
    if p + h.sz[p] in h.sz { assert p + h.sz[p] != p; }
  }

  // The words first..first+k of m are the words at..at+k of m'.
  ghost predicate KeptWords(m: seq<int>, m': seq<int>, first: int, at: int, k: int)
  {
    0 < k ==>
      && 0 <= first && 0 <= at && first + k <= |m| && at + k <= |m'|
      && forall j | at <= j < at + k :: m'[j] == m[first + j - at]
  }

  // realloc left the block at p, after merging it with everything up to e.
  ghost predicate Kept(h: Layout, h': Layout, p: int, e: int, size: int)
  {
    && p in h.live && p in h.sz && h'.live == h.live && p in h'.sz && size <= h'.sz[p] && h'.brk == h.brk
    && h'.sz == Placed(Joined(h.sz, p, e), p, e - p, size, false)
    && forall q | q in h.live && q != p :: q in h.sz && q in h'.sz && h'.sz[q] == h.sz[q]
  }

  lemma KeptFacts(m: seq<int>, h: Layout, h': Layout, p: int, e: int, size: int)
    requires WF(m, h) && p in h.live && p in h.sz && 3 <= size <= e - p && p + h.sz[p] <= e
    requires e == p + h.sz[p] || (p + h.sz[p] in h.sz && p + h.sz[p] !in h.live && e == End(h, p + h.sz[p]))
    requires h'.sz == Placed(Joined(h.sz, p, e), p, e - p, size, false) && h'.live == h.live - {p} + {p}
    requires h'.brk == h.brk
    ensures Kept(h, h', p, e, size)
  {
    SetsOf(m, h);
    TiledOf(m, h);
    hide WF;
    assert h'.live == h.live;
    forall q | q in h.live && q != p ensures q in h.sz && q in h'.sz && h'.sz[q] == h.sz[q] {
      OtherEnd(h, p, q);
      if p + h.sz[p] in h.sz && e != p + h.sz[p] { OtherEnd(h, p + h.sz[p], q); }
    }
  }

  lemma LiveApart(m: seq<int>, h: Layout, p: int, next: int)
    requires WF(m, h) && h.out == {} && p in h.live && next in h.sz && next !in h.live && next == p + h.sz[p]
    ensures 3 <= h.sz[next] && p != next
    ensures p !in h.out + {next}
  {
  }

  // The words realloc asks for when the block at p is the last one or only the last
  // free block follows it.
  function Missing(h: Layout, p: int, size: int): int
    requires p in h.sz && Extendable(h)
  {
    size - h.sz[p] - (if h.last == NULL then 0 else h.sz[h.last])
  }

  // The paths of mm_realloc for a block p and a request of size words.
  predicate CanAbsorb(h: Layout, p: int, size: int)
    requires p in h.sz
  {
    End(h, p) in h.sz && End(h, p) !in h.live && size <= h.sz[p] + h.sz[End(h, p)]
  }

  predicate AtEnd(h: Layout, p: int)
    requires p in h.sz
  {
    End(h, p) == h.brk || End(h, p) == h.last
  }

  // mem_sbrk fails for a request of words at break b under a limit of cap words.
  predicate Exhausted(words: int, b: int, cap: int)
  {
    8 * words >= 0x8000_0000 || b + words > cap
  }

  predicate CanExtend(h: Layout, p: int, size: int, cap: int)
    requires p in h.sz && Extendable(h)
  {
    AtEnd(h, p) && !Exhausted(RoundPage(Missing(h, p, size)), h.brk, cap)
  }

  // realloc returns the block it was given exactly in these cases.
  predicate Stays(h: Layout, p: int, size: int, cap: int)
    requires p in h.sz && Extendable(h)
  {
    size <= h.sz[p] || CanAbsorb(h, p, size) || CanExtend(h, p, size, cap)
  }

  // The heap in which realloc splits the block that stays, and where the space it
  // splits ends.
  function StayLayout(h: Layout, p: int, size: int): Layout
    requires p in h.sz && Extendable(h)
  {
    if size <= h.sz[p] || CanAbsorb(h, p, size) then h else Extended(h, RoundPage(Missing(h, p, size)))
  }

  function StayEnd(h: Layout, p: int, size: int): int
    requires p in h.sz && Extendable(h)
  {
    if size <= h.sz[p] then End(h, p)
    else if CanAbsorb(h, p, size) then End(h, End(h, p))
    else h.brk + RoundPage(Missing(h, p, size))
  }

  // What mm_realloc reads from the header after the block.
  lemma NextHeader(m: seq<int>, h: Layout, p: int)
    requires WF(m, h) && h.out == {} && h.tiny == {} && p in h.live && p in h.sz
    ensures var e := End(h, p);
      && 1 <= e <= |m| && 0 <= m[e-1]
      && SizeOf(m[e-1]) == (if e in h.sz then h.sz[e] else 0)
      && AllocOf(m[e-1]) == (if e in h.sz && e !in h.live then 0 else 1)
      && (e in h.sz ==> 3 <= h.sz[e]) && 3 <= h.sz[p] && (e !in h.sz ==> e == h.brk) && h.brk !in h.sz
    ensures Extendable(h)
    ensures h.last != NULL ==> h.last in h.sz && h.last !in h.live && 3 <= h.sz[h.last] && 1 <= h.last <= |m|
    ensures h.last != NULL ==> SizeOf(m[h.last-1]) == h.sz[h.last] && h.last + h.sz[h.last] == h.brk
    ensures End(h, p) == h.brk ==> h.last == NULL
    ensures 1 <= p <= |m| && SizeOf(m[p-1]) == h.sz[p]
  {
    Packed(h.sz[p], 1);
    var e := End(h, p);
    LiveFacts(m, h, p);
    LastTagged(m, h);
    Packed(0, 1);
    if h.last != NULL {
      LastFacts(m, h);
      Packed(h.sz[h.last], 0);
      if e == h.brk { OnePredecessor(h, h.last, p); }
    }
    if e in h.sz {
      assert TagsAt(m, h, e);
      assert 3 <= h.sz[e];
      Packed(h.sz[e], if e in h.live then 1 else 0);
    }
  }

  // After extend_heap the block after p is the new last free block.
  lemma GrownNext(m: seq<int>, h: Layout, p: int, k: int, size: int)
    requires WF(m, h) && h.out == {} && h.tiny == {} && p in h.live && p in h.sz && AtEnd(h, p) && Extendable(h)
    requires Missing(h, p, size) <= k
    ensures var h' := Extended(h, k);
      && NewBlock(h) == End(h, p) && End(h, p) in h'.sz && End(h, p) !in h'.live && p in h'.sz && h'.sz[p] == h.sz[p]
      && p in h'.live && h'.live == h.live && h'.tiny == h.tiny && h'.out == h.out
      && size <= h'.sz[p] + h'.sz[End(h, p)] && End(h', End(h, p)) == h.brk + k && End(h', p) == End(h, p)
      && forall q | q in h.live :: q in h.sz && q in h'.sz && h'.sz[q] == h.sz[q]
  {
    NextHeader(m, h, p);
    SetsOf(m, h);
  }

  // Between mm_free and remove_from_free_list, the payload of the freed block p but
  // for its first two words stays where it was, inside the free block x.
  lemma MovedSource(m0: seq<int>, h0: Layout, m1: seq<int>, h1: Layout, m2: seq<int>, h2: Layout, p: int, x: int,
          size: int)
    requires |m0| == |m1| == |m2| && WF(m0, h0) && p in h0.live && WF(m1, h1) && h1.out == {} && 3 <= size
    requires Extendable(h1)
    requires SpansFreed(h0, h1, p, x) && h2 == FitLayout(h1, size)
    requires forall i | 0 <= i && FreedFrom(h0, p) <= i < End(h0, p) - 2 && i < |m0| :: m1[i] == m0[i]
    requires forall i | 0 <= i < h1.brk - 1 && i != h1.last - 1 :: 0 <= i < |m1| && m2[i] == m1[i]
    requires Marks(m0, m1) && Marks(m1, m2) && p < |m1| && (End(h0, p) != h0.brk ==> 0 <= p && IsMark(m1[p], |m1|))
    ensures x in h2.sz && p + h0.sz[p] <= x + h2.sz[x] && x <= p && 0 < p
    ensures FreedWords(m0, m2, h0, p)
  {
    hide Marks;
    MarksTrans(m0, m1, m2);
    FitFacts(m1, h1, size);
    LastTagged(m1, h1);
    TiledOf(m1, h1);
    if h1.last != NULL && h1.last != x { OtherEnd(h1, x, h1.last); }
    assert First(h1) <= x && x + h1.sz[x] <= h1.brk <= |m1|;
    if End(h0, p) != h0.brk { MarkStays(m1, m2, p); }
  }

  // words are those of the heap after mm_free of block p and the search for a new
  // block: tags and links have been written, and the freed payload is as it was but for
  // its first two words, unless the block ended the heap.
  ghost predicate FreedWords(m: seq<int>, words: seq<int>, h: Layout, p: int)
    requires p in h.sz
  {
    && Marks(m, words) && 0 <= p < |m| && End(h, p) - 2 < |m| && (End(h, p) != h.brk ==> IsMark(words[p], |m|))
    && forall i | FreedFrom(h, p) <= i < End(h, p) - 2 :: words[i] == m[i]
  }

  function Word(m: seq<int>, i: int): int { if 0 <= i < |m| then m[i] else 0 }

  // What word i of the new block at r holds after the k payload words of block p were
  // copied to a place off words below r: place leaves these words in front of the new
  // block, and what the copy did not reach is what the heap held there.
  function Arrived(m: seq<int>, words: seq<int>, p: int, k: int, r: int, off: int, i: int): int
  {
    if off + i - r < k then Word(m, p + off + i - r) else Word(words, i)
  }

  // Every word of the payload of block p after it moved to r.
  ghost predicate Moved(m: seq<int>, words: seq<int>, m': seq<int>, h: Layout, p: int, r: int, off: int)
    requires p in h.sz
  {
    var k := h.sz[p] - 2;
    && FreedWords(m, words, h, p) && 0 <= off && 0 <= r && r + k <= |m'| == |m|
    && forall i {:trigger m'[i]} | r <= i < r + k :: m'[i] == Arrived(m, words, p, k, r, off, i)
  }

  lemma MovedWords(m0: seq<int>, m2: seq<int>, m5: seq<int>, h: Layout, p: int, b: int, r: int, t: int)
    requires p in h.sz && 3 <= h.sz[p] && FreedWords(m0, m2, h, p)
    requires |m5| == |m0| && 0 <= b <= r && h.sz[p] <= t && r + t - 2 <= |m5| && (b == r || b + 5 <= r)
    requires forall i | r <= i < r + t - 2 && i < b + (h.sz[p] - 2) ::
      0 <= i < |m5| && m5[i] == if i == b then m0[p] else if i == b + 1 then m0[p+1] else m2[p + i - b]
    requires forall i | r <= i < r + t - 2 && b + (h.sz[p] - 2) <= i && b + 2 <= i :: m5[i] == m2[i]
    ensures Moved(m0, m2, m5, h, p, r, r - b)
  {
  }

  // The first payload word of block p is no tag, no link and no other word of the heap.
  ghost predicate Marker(m: seq<int>, p: int)
  {
    0 <= p < |m| && !IsMark(m[p], |m|) && forall i | 0 <= i < |m| && i != p :: m[i] != m[p]
  }

  function Above(m: seq<int>): (v: int)
    ensures 8 * |m| + 1 < v && forall i | 0 <= i < |m| :: m[i] < v
  {
    if m == [] then 2 else
      var v := Above(m[1..]);
      assert forall i | 1 <= i < |m| :: m[i] == m[1..][i-1];
      8 + (if m[0] < v then v else m[0] + 1)
  }

  // Every allocated block can hold such a word.
  lemma MarkerFits(m: seq<int>, h: Layout, p: int) returns (v: int)
    requires WF(m, h) && h.out == {} && p in h.live && p in h.sz
    ensures 0 <= p < |m| && WF(m[p := v], h) && Marker(m[p := v], p)
  {
    LiveFacts(m, h, p);
    v := Above(m);
    StoreStep(m, m[p := v], h, p);
    assert Marker(m[p := v], p);
  }

  lemma PlacedAt(sz: map<int, int>, p: int, n: int, size: int)
    requires p in sz && sz[p] == n && 3 <= size <= n
    ensures var off := Offset(n, size, true);
      0 <= off && p + off in Placed(sz, p, n, size, true) && size <= Placed(sz, p, n, size, true)[p + off] <= n - off
      && (off == 0 || 5 <= off)
  {
  }

  lemma KeptWordsAfter(m0: seq<int>, m1: seq<int>, m2: seq<int>, p: int, n: int, k: int)
    requires SameBlock(m0, m1, p, n) && KeptWords(m1, m2, p, p, k) && k <= n - 2
    ensures KeptWords(m0, m2, p, p, k)
  {
  }

  lemma KeptLive(h: Layout, h': Layout, p: int, e: int, size: int)
    requires Kept(h, h', p, e, size)
    ensures h'.live == h.live && p in h'.sz && size <= h'.sz[p] && h'.brk == h.brk
  {
  }

  // --------------------------------------------------------- blocks of 32 bytes

  // Every block has room for its tags and for two links.
  ghost predicate Roomy(sz: map<int, int>)
  {
    forall p | p in sz :: 4 <= sz[p]
  }

  lemma PlacedRoomy(sz: map<int, int>, p: int, n: int, size: int, withOffset: bool)
    requires Roomy(sz) && 4 <= size <= n
    ensures Roomy(Placed(sz, p, n, size, withOffset))
  {
  }

  lemma ExtendedRoomy(h: Layout, words: int)
    requires Roomy(h.sz) && 0 < words && Extendable(h)
    ensures Roomy(Extended(h, RoundPage(words)).sz)
  {
    assert RoundPage(words) >= 128;
  }

  // A request of more than 8 bytes leaves no smaller block behind, and neither does
  // free of a block that had the room.
  lemma AllocatedRoomy(m: seq<int>, h: Layout, h': Layout, size: int, r: int)
    requires WF(m, h) && h.out == {} && 4 <= size && Extendable(h) && Allocated(h, h', size, r) && Roomy(h.sz)
    ensures Roomy(h'.sz)
  {
    FitFacts(m, h, size);
    hide WF, Placed, Fit;
    if Fit(h, size) == NULL { ExtendedRoomy(h, Need(h, size)); }
    PlacedRoomy(FitLayout(h, size).sz, FitBlock(h, size), FitLayout(h, size).sz[FitBlock(h, size)], size, true);
  }

  lemma FreedRoomy(m: seq<int>, h: Layout, m': seq<int>, h': Layout, p: int, r: int)
    requires WF(m, h) && h.out == {} && p in h.live && |h.lists| == NUM_FL && p in h.sz
    requires Coalesced(Filed(h, p), h', p, r) && WF(m', h') && Roomy(h.sz)
    ensures Roomy(h'.sz)
  {
    FreedFacts(m, h, m', h', p, r);
    FiledSets(h, p);
  }

  lemma KeptRoomy(m: seq<int>, h: Layout, h': Layout, p: int, size: int, cap: int)
    requires WF(m, h) && h.out == {} && h.tiny == {} && p in h.live && p in h.sz && Extendable(h) && 4 <= size
    requires Stays(h, p, size, cap) && Kept(StayLayout(h, p, size), h', p, StayEnd(h, p, size), size)
    requires Roomy(h.sz)
    ensures Roomy(h'.sz)
  {
    NextHeader(m, h, p);
    hide WF;
    var f, e := StayLayout(h, p, size), StayEnd(h, p, size);
    if f != h { ExtendedRoomy(h, Missing(h, p, size)); }
    assert size <= e - p;
    PlacedRoomy(Joined(f.sz, p, e), p, e - p, size, false);
  }
}
