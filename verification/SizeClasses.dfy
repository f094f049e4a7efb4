// compute_free_list_index and the first-fit search over the lists.
module SizeClasses {
  import opened Arith
  import opened HeapLayout

  // List n holds the blocks of 2^n to 2^(n+1)-1 bytes; the first list also takes
  // everything smaller and the last one everything larger.
  lemma ClassOfBounds(size: int)
    ensures var n := ClassOf(size) + MIN_FREE_SIZE;
      (n > 5 ==> Pow2(n) <= 8 * size) && (n < 12 ==> 8 * size < Pow2(n + 1))
  {
    Pow2Values();
  }

  lemma ClassOfMonotonic(a: int, b: int)
    requires a <= b
    ensures ClassOf(a) <= ClassOf(b)
  {
  }

  // size >> n == 0
  lemma ShiftedOut(size: int, p: int)
    requires 0 <= size && 0 < p
    ensures size / p == 0 <==> size < p
  {
    if size < p {
      assert size == 0 * p + size;
    }
  }

  // The first block of l that is large enough, or NULL.
  function FitIn(l: seq<int>, sz: map<int, int>, size: int): int
  {
    if l == [] then NULL
    else if l[0] in sz && sz[l[0]] >= size then l[0]
    else FitIn(l[1..], sz, size)
  }

  // The first large enough block of lists k, k+1, ..., or NULL.
  function FitFrom(lists: seq<seq<int>>, sz: map<int, int>, size: int, k: int): int
    decreases |lists| - k
  {
    if k < 0 || k >= |lists| then NULL
    else if FitIn(lists[k], sz, size) != NULL then FitIn(lists[k], sz, size)
    else FitFrom(lists, sz, size, k + 1)
  }

  lemma FitFromHere(lists: seq<seq<int>>, sz: map<int, int>, size: int, k: int)
    requires 0 <= k < |lists|
    ensures FitFrom(lists, sz, size, k) ==
      if FitIn(lists[k], sz, size) != NULL then FitIn(lists[k], sz, size) else FitFrom(lists, sz, size, k + 1)
  {
  }

  lemma {:induction false} FitInFinds(l: seq<int>, sz: map<int, int>, size: int)
    requires forall x | x in l :: x in sz && x != NULL
    ensures var r := FitIn(l, sz, size);
      if r == NULL then forall x | x in l :: sz[x] < size
      else exists i ::
        0 <= i < |l| && l[i] == r && sz[r] >= size && forall j | 0 <= j < i :: l[j] in sz && sz[l[j]] < size
  {
    if l != [] {
      FitInFinds(l[1..], sz, size);
    }
  }

  lemma {:induction false} FitFromFinds(h: Layout, size: int, k: int)
    requires Tiled(h) && Listed(h) && 0 <= k <= NUM_FL
    ensures var r := FitFrom(h.lists, h.sz, size, k);
      if r == NULL then forall j, x | k <= j < NUM_FL && x in h.lists[j] :: x in h.sz && h.sz[x] < size
      else r in h.sz && h.sz[r] >= size && exists j :: k <= j < NUM_FL && r in h.lists[j]
    decreases NUM_FL - k
  {
    if k < NUM_FL {
      var l := h.lists[k];
      forall x | x in l ensures x in h.sz && x != NULL && ListedAt(h, x, k) {
        var i :| 0 <= i < |l| && l[i] == x;
        assert ListedAt(h, h.lists[k][i], k);
      }
      FitInFinds(l, h.sz, size);
      FitFromFinds(h, size, k + 1);
    }
  }

  // The search from the list of the wanted size skips no block that would do: it
  // fails exactly when every indexed block of the whole heap is too small.
  lemma SearchIsExhaustive(h: Layout, size: int)
    requires Tiled(h) && Indexed(h) && h.out == {}
    ensures FitFrom(h.lists, h.sz, size, ClassOf(size)) == NULL
      <==> forall p | p in h.sz && p !in h.live && p != h.last :: h.sz[p] < size
    ensures var r := FitFrom(h.lists, h.sz, size, ClassOf(size));
      r != NULL ==> r in h.sz && r !in h.live && r != h.last && h.sz[r] >= size
  {
    var k := ClassOf(size);
    FitFromFinds(h, size, k);
    var r := FitFrom(h.lists, h.sz, size, k);
    if r != NULL {
      var j :| k <= j < NUM_FL && r in h.lists[j];
      var i :| 0 <= i < |h.lists[j]| && h.lists[j][i] == r;
      assert ListedAt(h, r, j);
    } else {
      forall p | p in h.sz && p !in h.live && p != h.last ensures h.sz[p] < size {
        assert p in h.lists[ClassOf(h.sz[p])];
        if size <= h.sz[p] { ClassOfMonotonic(size, h.sz[p]); }
      }
    }
  }
}
