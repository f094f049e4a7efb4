// A client that plays a trace of requests against the allocator as mdriver.c does:
// it fills each block it gets and, after a realloc, checks what was kept.
module HeapClient {
  import opened HeapLayout
  import opened HeapSteps
  import opened Policy
  import opened HeapSpec
  import opened Requests
  import opened Allocator

  datatype Op = Alloc(id: nat, bytes: int) | Resize(id: nat, bytes: int) | Release(id: nat)
  datatype Handle = Handle(ptr: int, words: int)
  datatype Verdict = Passed | OutOfMemory | NotPreserved

  // A size the allocator and its int argument to mem_sbrk can serve, above 8 bytes.
  predicate SizeOk(bytes: int)
  {
    8 < bytes && 8 * RoundPage(Aligned(bytes)) < INT_RANGE
  }

  // The trace allocates fresh ids and resizes and frees allocated ones.
  ghost predicate TraceOk(ops: seq<Op>, ids: set<nat>)
  {
    ops == [] ||
    match ops[0]
      case Alloc(id, bytes) => id !in ids && SizeOk(bytes) && TraceOk(ops[1..], ids + {id})
      case Resize(id, bytes) => id in ids && SizeOk(bytes) && TraceOk(ops[1..], ids)
      case Release(id) => id in ids && TraceOk(ops[1..], ids - {id})
  }

  // --------------------------------------------------------- the run as a function

  // The heap, and what the client holds of it.
  datatype World = World(s: State, blocks: map<nat, Handle>)

  // memset
  function AfterFill(s: State, p: int, words: int, id: int): State
  {
    s.(m := seq(|s.m|, i requires 0 <= i < |s.m| => if p <= i < p + words then id else s.m[i]))
  }

  // The block of id becomes r, filled.
  function Taking(s: State, blocks: map<nat, Handle>, id: nat, bytes: int, r: int): World
  {
    World(AfterFill(s, r, bytes / 8, id), blocks[id := Handle(r, bytes / 8)])
  }

  function HandleOf(w: World, id: nat): Handle { if id in w.blocks then w.blocks[id] else Handle(NULL, 0) }

  // What mdriver finds when it has carried out one request in a memory of cap words:
  // after a realloc it looks for what it wrote in the words that should have been kept.
  ghost function VerdictOf(w: World, op: Op, cap: int): Verdict
  {
    match op
      case Alloc(id, bytes) => if NoRoom(w.s.h, Aligned(bytes), cap) then OutOfMemory else Passed
      case Release(id) => Passed
      case Resize(id, bytes) =>
        var b := HandleOf(w, id);
        var r := ReallocResult(w.s.h, b.ptr, Aligned(bytes), cap);
        if r == NULL then OutOfMemory
        else if Filled(AfterRealloc(w.s, b.ptr, Aligned(bytes), cap).m, r, Min(b.words, bytes / 8), id) then Passed
        else NotPreserved
  }

  // The world after it; a request that fails leaves the client as it was.
  ghost function Next(w: World, op: Op, cap: int): World
  {
    match op
      case Alloc(id, bytes) =>
        if VerdictOf(w, op, cap) != Passed then w
        else Taking(AfterMalloc(w.s, Aligned(bytes)), w.blocks, id, bytes, MallocResult(w.s.h, Aligned(bytes)))
      case Release(id) => World(AfterFree(w.s, HandleOf(w, id).ptr), w.blocks - {id})
      case Resize(id, bytes) =>
        var p := HandleOf(w, id).ptr;
        var s := AfterRealloc(w.s, p, Aligned(bytes), cap);
        if VerdictOf(w, op, cap) != Passed then World(s, w.blocks)
        else Taking(s, w.blocks, id, bytes, ReallocResult(w.s.h, p, Aligned(bytes), cap))
  }

  ghost function After(w: World, ops: seq<Op>, cap: int): World
  {
    if ops == [] then w else Next(After(w, ops[..|ops|-1], cap), ops[|ops|-1], cap)
  }

  // One of the first kept words that arrived at r is not id.
  ghost predicate LostWord(m: seq<int>, words: seq<int>, p: int, k: int, r: int, off: int, kept: int, id: int)
  {
    exists i | r <= i < r + kept :: Arrived(m, words, p, k, r, off, i) != id
  }

  // The request is a realloc whose block leaves its place and finds another one, place
  // leaves the payload behind, and one of the words that arrive is not what the client
  // wrote.
  ghost predicate Loses(w: World, op: Op, cap: int)
  {
    op.Resize? &&
    var b := HandleOf(w, op.id);
    var size := Aligned(op.bytes);
    && b.ptr in w.s.h.sz && Leaves(w.s.h, b.ptr, size, cap) && !CannotMove(w.s.h, b.ptr, size, cap)
    && !Carried(w.s.h, b.ptr, size)
    && var f := Freed(w.s.h, b.ptr);
       LostWord(w.s.m, WordsBeforeCopy(w.s, b.ptr, size), b.ptr, w.s.h.sz[b.ptr] - 2,
                MallocResult(f, size), Shift(f, size), Min(b.words, op.bytes / 8), op.id)
  }

  predicate NoResize(ops: seq<Op>)
  {
    forall i | 0 <= i < |ops| :: !ops[i].Resize?
  }

  ghost predicate Filled(m: seq<int>, p: int, words: int, id: int)
  {
    0 <= p && p + words <= |m| && forall j | p <= j < p + words :: m[j] == id
  }

  ghost predicate Holds(m: seq<int>, h: Layout, id: nat, b: Handle)
  {
    && b.ptr in h.live && b.ptr in h.sz && 4 <= h.sz[b.ptr] && 0 <= b.words <= h.sz[b.ptr] - 2
    && Filled(m, b.ptr, b.words, id)
  }

  // Every allocated block belongs to one id and still holds what was written there.
  ghost predicate Owned(m: seq<int>, h: Layout, blocks: map<nat, Handle>)
  {
    && (forall id | id in blocks :: Holds(m, h, id, blocks[id]))
    && (forall i, j | i in blocks && j in blocks && i != j :: blocks[i].ptr != blocks[j].ptr)
    && (forall p | p in h.live :: exists id :: id in blocks && blocks[id].ptr == p)
  }

  // What one id holds survives a step that leaves its block alone.
  lemma StillHolds(m: seq<int>, h: Layout, m': seq<int>, h': Layout, id: nat, b: Handle, s: set<int>)
    requires Holds(m, h, id, b) && SameBlocks(m, m', s, h.sz) && b.ptr in s
    requires b.ptr in h'.live && b.ptr in h'.sz && h'.sz[b.ptr] == h.sz[b.ptr]
    ensures Holds(m', h', id, b)
  {
    assert SameBlock(m, m', b.ptr, h.sz[b.ptr]);
  }

  // The step replaced the block of id: every other id keeps its block.
  lemma OwnedStep(m: seq<int>, h: Layout, m': seq<int>, h': Layout, blocks: map<nat, Handle>, id: nat, b: Handle,
          s: set<int>)
    requires Owned(m, h, blocks)
    requires s == if id in blocks then h.live - {blocks[id].ptr} else h.live
    requires SameBlocks(m, m', s, h.sz)
    requires h'.live == s + {b.ptr} && b.ptr !in s && Holds(m', h', id, b)
    requires forall q | q in s :: q in h.sz && q in h'.sz && h'.sz[q] == h.sz[q]
    ensures Owned(m', h', blocks[id := b])
  {
    var blocks' := blocks[id := b];
    forall k | k in blocks' && k != id ensures Holds(m', h', k, blocks'[k]) && blocks'[k].ptr in s {
      assert k in blocks && Holds(m, h, k, blocks[k]);
      StillHolds(m, h, m', h', k, blocks[k], s);
    }
    forall p | p in h'.live ensures exists k :: k in blocks' && blocks'[k].ptr == p {
      if p == b.ptr {
        assert blocks'[id].ptr == p;
      } else {
        var k :| k in blocks && blocks[k].ptr == p;
        assert k in blocks' && blocks'[k].ptr == p;
      }
    }
  }

  // memset of the first words of a block.
  method Fill(heap: Heap, p: int, words: int, id: nat)
    requires heap.Valid() && p in heap.h.live && p in heap.h.sz && 0 <= words <= heap.h.sz[p] - 2
    modifies heap.mem
    ensures heap.Valid() && Filled(heap.mem[..], p, words, id) && heap.Now() == AfterFill(old(heap.Now()), p, words, id)
    ensures SameBlocks(old(heap.mem[..]), heap.mem[..], heap.h.live - {p}, heap.h.sz)
  {
    hide WF, SameBlocks;
    ghost var m0 := heap.mem[..];
    LiveFacts(m0, heap.h, p);
    SameBlocksRefl(m0, heap.h, heap.h.live - {p});
    var i := 0;
    while i < words
      invariant 0 <= i <= words && heap.Valid() && Filled(heap.mem[..], p, i, id)
      invariant SameBlocks(m0, heap.mem[..], heap.h.live - {p}, heap.h.sz)
      invariant forall j | 0 <= j < heap.mem.Length && !(p <= j < p + i) :: heap.mem[j] == m0[j]
    {
      ghost var m1 := heap.mem[..];
      heap.Store(p, i, id);
      FrameJoin(m0, m1, heap.mem[..], heap.h.live - {p}, heap.h.sz, heap.h.live - {p}, heap.h.sz);
      i := i + 1;
    }
    FillIs(State(m0, heap.h), heap.mem[..], p, words, id);
  }

  lemma FillIs(s: State, m: seq<int>, p: int, words: int, id: int)
    requires |m| == |s.m| && Filled(m, p, words, id)
    requires forall j | 0 <= j < |m| && !(p <= j < p + words) :: m[j] == s.m[j]
    ensures AfterFill(s, p, words, id) == s.(m := m)
  {
    var a := AfterFill(s, p, words, id).m;
    assert a == m;
  }

  // The check mdriver makes after mm_realloc.
  method CheckFilled(heap: Heap, p: int, words: int, id: nat) returns (ok: bool)
    requires 0 <= p && 0 <= words && p + words <= heap.mem.Length
    ensures ok <==> Filled(heap.mem[..], p, words, id)
  {
    var i := 0;
    while i < words
      invariant 0 <= i <= words && Filled(heap.mem[..], p, i, id)
    {
      if heap.mem[p + i] != id {
        return false;
      }
      i := i + 1;
    }
    return true;
  }

  method DoAlloc(heap: Heap, blocks: map<nat, Handle>, id: nat, bytes: int) returns (r: int)
    requires heap.Valid() && Owned(heap.mem[..], heap.h, blocks) && id !in blocks && SizeOk(bytes)
    modifies heap, heap.mem
    ensures heap.Valid() && (NoAdjacent(old(heap.h)) ==> NoAdjacent(heap.h))
    ensures Roomy(old(heap.h).sz) ==> Roomy(heap.h.sz)
    ensures var w, op := World(old(heap.Now()), blocks), Alloc(id, bytes);
      var blocks' := if r == NULL then blocks else blocks[id := Handle(r, bytes / 8)];
      && VerdictOf(w, op, heap.mem.Length) == (if r == NULL then OutOfMemory else Passed)
      && World(heap.Now(), blocks') == Next(w, op, heap.mem.Length) && Owned(heap.mem[..], heap.h, blocks')
  {
    hide WF, SameBlocks, Owned, NoAdjacent, TooSmall, Allocated, Roomy, AfterMalloc, MallocResult, NoRoom, AfterFill;
    ghost var m0, h0 := heap.mem[..], heap.h;
    r := heap.Malloc(bytes);
    if r == NULL {
      return;
    }
    ghost var m1 := heap.mem[..];
    AllocatedSets(h0, heap.h, Aligned(bytes), r);
    if Roomy(h0.sz) { AllocatedRoomy(m0, h0, heap.h, Aligned(bytes), r); }
    Fill(heap, r, bytes / 8, id);
    FrameJoin(m0, m1, heap.mem[..], h0.live, h0.sz, heap.h.live - {r}, heap.h.sz);
    OwnedStep(m0, h0, heap.mem[..], heap.h, blocks, id, Handle(r, bytes / 8), h0.live);
  }

  method DoRelease(heap: Heap, blocks: map<nat, Handle>, id: nat)
    requires heap.Valid() && Owned(heap.mem[..], heap.h, blocks) && id in blocks
    modifies heap, heap.mem
    ensures heap.Valid() && (NoAdjacent(old(heap.h)) ==> NoAdjacent(heap.h))
    ensures Roomy(old(heap.h).sz) ==> Roomy(heap.h.sz)
    ensures Owned(heap.mem[..], heap.h, blocks - {id})
    ensures World(heap.Now(), blocks - {id}) == Next(World(old(heap.Now()), blocks), Release(id), heap.mem.Length)
  {
    hide WF, SameBlocks, NoAdjacent, Coalesced, Roomy, AfterFree, Freed;
    ghost var m0, h0 := heap.mem[..], heap.h;
    assert Holds(m0, h0, id, blocks[id]);
    ghost var x := heap.Free(blocks[id].ptr);
    OwnedLess(m0, h0, heap.mem[..], heap.h, blocks, id);
    if Roomy(h0.sz) { FreedRoomy(m0, h0, heap.mem[..], heap.h, blocks[id].ptr, x); }
  }

  lemma OwnedLess(m: seq<int>, h: Layout, m': seq<int>, h': Layout, blocks: map<nat, Handle>, id: nat)
    requires Owned(m, h, blocks) && id in blocks
    requires h'.live == h.live - {blocks[id].ptr} && SameBlocks(m, m', h'.live, h.sz)
    requires forall q | q in h'.live :: q in h.sz && q in h'.sz && h'.sz[q] == h.sz[q]
    ensures Owned(m', h', blocks - {id})
  {
    var blocks' := blocks - {id};
    forall k | k in blocks' ensures Holds(m', h', k, blocks'[k]) {
      assert k in blocks && Holds(m, h, k, blocks[k]) && blocks[k].ptr != blocks[id].ptr;
      StillHolds(m, h, m', h', k, blocks[k], h'.live);
    }
    forall p | p in h'.live ensures exists k :: k in blocks' && blocks'[k].ptr == p {
      var k :| k in blocks && blocks[k].ptr == p;
      assert k in blocks' && blocks'[k].ptr == p;
    }
  }

  // mm_realloc followed by mdriver's check and refill.
  method DoResize(heap: Heap, blocks: map<nat, Handle>, id: nat, bytes: int) returns (v: Verdict, r: int)
    requires heap.Valid() && Owned(heap.mem[..], heap.h, blocks) && id in blocks && SizeOk(bytes)
    modifies heap, heap.mem
    ensures heap.Valid() && (Roomy(old(heap.h).sz) ==> Roomy(heap.h.sz))
    ensures var w, op := World(old(heap.Now()), blocks), Resize(id, bytes);
      var blocks' := if v == Passed then blocks[id := Handle(r, bytes / 8)] else blocks;
      && v == VerdictOf(w, op, heap.mem.Length) && World(heap.Now(), blocks') == Next(w, op, heap.mem.Length)
      && (v == Passed ==> Owned(heap.mem[..], heap.h, blocks'))
      && (v == NotPreserved <==> Loses(w, op, heap.mem.Length))
  {
    hide WF, SameBlocks, Owned, NoAdjacent, Served, CanGrow, GrownTo, TooSmall, Allocated, Coalesced, Kept,
         Realizable, Extended, Moved, Roomy, AfterFill, AfterRealloc, ReallocResult, AfterMalloc, AfterFree, Freed,
         MallocResult, Shift, Found, WordsBeforeCopy, Carried, NoRoom, LostWord;
    ghost var m0, h0, cap := heap.mem[..], heap.h, heap.mem.Length;
    var b := blocks[id];
    OwnedOne(m0, h0, blocks, id);
    LiveFacts(m0, h0, b.ptr);
    r := heap.Realloc(b.ptr, bytes);
    ghost var m1, h1, size := heap.mem[..], heap.h, Aligned(bytes);
    ghost var freed := Freed(h0, b.ptr);
    ResizeRoomy(m0, h0, freed, m1, h1, b.ptr, size, r, cap);
    if r == NULL {
      return OutOfMemory, r;
    }
    ghost var s := h0.live - {b.ptr};
    var kept := Min(b.words, bytes / 8);
    if Stays(h0, b.ptr, size, cap) {
      StaySets(m0, h0, h1, b.ptr, size, cap);
      KeptFilled(m0, m1, b.ptr, r, b.words, kept, id, Min(h0.sz[b.ptr], h1.sz[b.ptr]) - 2);
    } else {
      MoveSets(m0, h0, freed, h1, b.ptr, size, r);
      MovedFilled(m0, WordsBeforeCopy(State(m0, h0), b.ptr, size), m1, h0, b.ptr, size, b.words, kept, id);
    }
    LiveFacts(m1, h1, r);
    var ok := CheckFilled(heap, r, kept, id);
    if !ok {
      return NotPreserved, r;
    }
    Fill(heap, r, bytes / 8, id);
    FrameJoin(m0, m1, heap.mem[..], s, h0.sz, h1.live - {r}, h1.sz);
    OwnedStep(m0, h0, heap.mem[..], heap.h, blocks, id, Handle(r, bytes / 8), s);
    v := Passed;
  }

  lemma KeptFilled(m: seq<int>, m': seq<int>, p: int, r: int, words: int, kept: int, id: int, k: int)
    requires Filled(m, p, words, id) && kept <= words && kept <= k && KeptWords(m, m', p, r, k)
    ensures 0 < kept ==> Filled(m', r, kept, id)
  {
  }

  lemma MovedFilled(m: seq<int>, words: seq<int>, m': seq<int>, h: Layout, p: int, size: int, n: int, kept: int,
          id: int)
    requires p in h.sz && 3 <= h.sz[p] && Filled(m, p, n, id) && 0 <= kept <= n <= h.sz[p] - 2
    requires var f := Freed(h, p); Moved(m, words, m', h, p, MallocResult(f, size), Shift(f, size))
    ensures var f := Freed(h, p);
      var r, off := MallocResult(f, size), Shift(f, size);
      && (Carried(h, p, size) ==> Filled(m', r, kept, id))
      && (Filled(m', r, kept, id) <==> !LostWord(m, words, p, h.sz[p] - 2, r, off, kept, id))
  {
    hide Freed, Shift, MallocResult, Carried;
    PayloadSurvives(m, words, m', h, p, size);
    var f, k := Freed(h, p), h.sz[p] - 2;
    var r, off := MallocResult(f, size), Shift(f, size);
    if LostWord(m, words, p, k, r, off, kept, id) {
      var i :| r <= i < r + kept && Arrived(m, words, p, k, r, off, i) != id;
      assert m'[i] == Arrived(m, words, p, k, r, off, i);
    } else {
      assert forall i | r <= i < r + kept :: m'[i] == Arrived(m, words, p, k, r, off, i);
    }
  }

  lemma ResizeRoomy(m: seq<int>, h: Layout, freed: Layout, m': seq<int>, h': Layout, p: int, size: int, r: int,
          cap: int)
    requires WF(m, h) && h.out == {} && h.tiny == {} && p in h.live && p in h.sz && |h.lists| == NUM_FL
    requires Extendable(h) && 4 <= size
    requires if Stays(h, p, size, cap) then Kept(StayLayout(h, p, size), h', p, StayEnd(h, p, size), size) else
      && Extendable(freed) && Realizable(freed) && freed.out == {} && (exists x :: Coalesced(Filed(h, p), freed, p, x))
      && if r == NULL then h' == freed else Allocated(freed, h', size, r)
    ensures Roomy(h.sz) ==> Roomy(h'.sz)
  {
    hide WF, Coalesced, Allocated, Kept, Roomy;
    if Roomy(h.sz) {
      if Stays(h, p, size, cap) {
        KeptRoomy(m, h, h', p, size, cap);
      } else {
        var x :| Coalesced(Filed(h, p), freed, p, x);
        var m1 :| WF(m1, freed);
        FreedRoomy(m, h, m1, freed, p, x);
        if r != NULL { AllocatedRoomy(m1, freed, h', size, r); }
      }
    }
  }

  lemma OwnedOne(m: seq<int>, h: Layout, blocks: map<nat, Handle>, id: nat)
    requires Owned(m, h, blocks) && id in blocks
    ensures Holds(m, h, id, blocks[id])
  {
  }

  lemma StaySets(m: seq<int>, h: Layout, h': Layout, p: int, size: int, cap: int)
    requires WF(m, h) && h.out == {} && h.tiny == {} && p in h.live && p in h.sz && Extendable(h) && 3 <= size
    requires Stays(h, p, size, cap) && Kept(StayLayout(h, p, size), h', p, StayEnd(h, p, size), size)
    ensures h'.live == (h.live - {p}) + {p} && p in h'.sz && size <= h'.sz[p]
    ensures forall q | q in h.live - {p} :: q in h.sz && q in h'.sz && h'.sz[q] == h.sz[q]
  {
    SetsOf(m, h);
    NextHeader(m, h, p);
    if !(size <= h.sz[p] || CanAbsorb(h, p, size)) {
      GrownNext(m, h, p, RoundPage(Missing(h, p, size)), size);
    }
  }

  lemma MoveSets(m: seq<int>, h: Layout, freed: Layout, h': Layout, p: int, size: int, r: int)
    requires WF(m, h) && h.out == {} && p in h.live && p in h.sz && |h.lists| == NUM_FL && 3 <= size
    requires Extendable(freed) && Realizable(freed) && freed.out == {}
    requires exists x :: Coalesced(Filed(h, p), freed, p, x)
    requires freed.live == h.live - {p} && Allocated(freed, h', size, r)
    ensures h'.live == (h.live - {p}) + {r} && r !in h.live - {p} && r in h'.sz && size <= h'.sz[r]
    ensures forall q | q in h.live - {p} :: q in h.sz && q in h'.sz && h'.sz[q] == h.sz[q]
    ensures FitBlock(freed, size) <= r
  {
    var x :| Coalesced(Filed(h, p), freed, p, x);
    var m' :| WF(m', freed);
    FreedFacts(m, h, m', freed, p, x);
  }

  // The trace ran from w as the function After says, stopped at the first request, number
  // k, that did not pass, and left s; it stopped at a loss exactly if request k is a
  // realloc that loses a word.
  ghost predicate Ran(w: World, ops: seq<Op>, cap: int, v: Verdict, k: nat, s: State)
  {
    && k <= |ops| && (v == Passed <==> k == |ops|)
    && (forall i | 0 <= i < k :: VerdictOf(After(w, ops[..i], cap), ops[i], cap) == Passed)
    && (k < |ops| ==> VerdictOf(After(w, ops[..k], cap), ops[k], cap) == v)
    && s == After(w, ops[..if k < |ops| then k + 1 else k], cap).s
    && (v == NotPreserved <==> k < |ops| && Loses(After(w, ops[..k], cap), ops[k], cap))
  }

  // Every trace from a fresh heap runs as the function After says, and stops at the
  // first request, number k, that does not pass.  Up to there the heap stays healthy,
  // with every block of at least 32 bytes, and every client has what it wrote; mdriver
  // reports a loss exactly if request k is a realloc that loses a word; and without
  // realloc no two neighbouring blocks are ever both free.
  method Play(heap: Heap, ops: seq<Op>) returns (v: Verdict, k: nat)
    requires heap.Valid() && heap.h.live == {} && NoAdjacent(heap.h) && TraceOk(ops, {})
    modifies heap, heap.mem
    ensures heap.Valid() && (Roomy(old(heap.h).sz) ==> Roomy(heap.h.sz))
    ensures Ran(World(old(heap.Now()), map[]), ops, heap.mem.Length, v, k, heap.Now())
    ensures v == Passed ==> Owned(heap.mem[..], heap.h,
      After(World(old(heap.Now()), map[]), ops, heap.mem.Length).blocks)
    ensures NoResize(ops) ==> v != NotPreserved && NoAdjacent(heap.h)
  {
    hide WF, Owned, NoAdjacent, Roomy, Next, VerdictOf, Loses, After, SizeOk;
    var held: map<nat, Handle> := map[];
    ghost var w, cap := World(heap.Now(), held), heap.mem.Length;
    NothingOwned(heap.mem[..], heap.h);
    ghost var ids: set<nat> := {};
    assert ops[0..] == ops && ops[..0] == [];
    AfterNone(w, cap);
    k := 0;
    while k < |ops|
      invariant 0 <= k <= |ops| && heap.Valid() && Owned(heap.mem[..], heap.h, held)
      invariant ids == held.Keys && TraceOk(ops[k..], ids)
      invariant NoResize(ops) ==> NoAdjacent(heap.h)
      invariant Roomy(old(heap.h).sz) ==> Roomy(heap.h.sz)
      invariant World(heap.Now(), held) == After(w, ops[..k], cap)
      invariant forall i | 0 <= i < k :: VerdictOf(After(w, ops[..i], cap), ops[i], cap) == Passed
    {
      assert ops[k..][0] == ops[k] && ops[k..][1..] == ops[k+1..];
      AfterOne(w, ops, k, cap);
      OnlyResizeLoses(After(w, ops[..k], cap), ops[k], cap);
      match ops[k] {
        case Alloc(id, bytes) =>
          var r := DoAlloc(heap, held, id, bytes);
          if r == NULL {
            return OutOfMemory, k;
          }
          held := held[id := Handle(r, bytes / 8)];
          ids := ids + {id};
        case Resize(id, bytes) =>
          var v1, r := DoResize(heap, held, id, bytes);
          if v1 != Passed {
            return v1, k;
          }
          held := held[id := Handle(r, bytes / 8)];
        case Release(id) =>
          DoRelease(heap, held, id);
          held := held - {id};
          ids := ids - {id};
      }
      k := k + 1;
    }
    assert ops[..k] == ops;
    v := Passed;
  }

  lemma AfterNone(w: World, cap: int)
    ensures After(w, [], cap) == w
  {
  }

  lemma AfterOne(w: World, ops: seq<Op>, k: nat, cap: int)
    requires k < |ops|
    ensures After(w, ops[..k+1], cap) == Next(After(w, ops[..k], cap), ops[k], cap)
  {
    assert ops[..k+1][..k] == ops[..k] && ops[..k+1][k] == ops[k];
  }

  lemma OnlyResizeLoses(w: World, op: Op, cap: int)
    ensures !op.Resize? ==> !Loses(w, op, cap) && VerdictOf(w, op, cap) != NotPreserved
    ensures op.Release? ==> VerdictOf(w, op, cap) == Passed
  {
  }

  // A whole life of a heap: memlib's memory of max words, mm_init, then any trace.  w is
  // the world after mm_init: one free block of a page.
  method Session(lo: int, max: int, ops: seq<Op>)
    returns (heap: Heap, started: bool, v: Verdict, k: nat, ghost w: World)
    requires 2 <= lo && 0 <= max && TraceOk(ops, {})
    ensures started <==> 155 <= max
    ensures started ==>
      && w.blocks == map[] && w.s.h.sz == map[lo + 27 := 128] && w.s.h.live == {} && WF(w.s.m, w.s.h)
      && heap.Valid() && Roomy(heap.h.sz) && Ran(w, ops, lo + max, v, k, heap.Now())
      && (v == Passed ==> Owned(heap.mem[..], heap.h, After(w, ops, lo + max).blocks))
      && (NoResize(ops) ==> v != NotPreserved && NoAdjacent(heap.h))
  {
    hide WF, Owned, NoAdjacent, Ran, After;
    heap := new Heap(lo, max);
    var status := heap.Init();
    started, v, k, w := status == 0, Passed, 0, World(heap.Now(), map[]);
    if started {
      v, k := Play(heap, ops);
    }
  }

  lemma NothingOwned(m: seq<int>, h: Layout)
    requires h.live == {}
    ensures Owned(m, h, map[])
  {
  }
}
