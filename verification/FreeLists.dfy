// add_to_free_list and remove_from_free_list on the words of the heap.
module FreeLists {
  import opened HeapLayout

  // The four PUT_FL writes of add_to_free_list.
  function LinkIn(m: seq<int>, pro: int, next: int, p: int): seq<int>
    requires 0 <= pro && pro + 1 < |m| && 0 <= next < |m| && 0 <= p && p + 1 < |m|
  {
    m[pro + 1 := 8 * p][next := 8 * p][p := 8 * pro][p + 1 := 8 * next]
  }

  // The two PUT_FL writes of remove_from_free_list.
  function Unlink(m: seq<int>, prev: int, next: int): seq<int>
    requires 0 <= prev && prev + 1 < |m| && 0 <= next < |m|
  {
    m[prev + 1 := 8 * next][next := 8 * prev]
  }

  // ------------------------------------------------- doubly linked chains alone

  // The link words of distinct nodes are distinct.  The last node, an epilogue,
  // has no next link.
  ghost predicate Spread(c: seq<int>)
  {
    forall a, b | 0 <= a < |c| && 0 <= b < |c| && a != b ::
      c[a] != c[b] && (a < |c| - 1 ==> c[a] + 1 != c[b])
  }

  ghost predicate Disjoint(c: seq<int>, d: seq<int>)
  {
    forall a, b | 0 <= a < |c| && 0 <= b < |d| ::
      c[a] != d[b] && (a < |c| - 1 ==> c[a] + 1 != d[b]) && (b < |d| - 1 ==> d[b] + 1 != c[a])
  }

  lemma UnlinkChain(m: seq<int>, c: seq<int>, i: int)
    requires Linked(m, c) && Spread(c) && 0 < i < |c| - 1
    ensures Linked(Unlink(m, c[i-1], c[i+1]), c[..i] + c[i+1..])
  {
    var m' := Unlink(m, c[i-1], c[i+1]);
    var c' := c[..i] + c[i+1..];
    forall j | 0 <= j < |c'| - 1
      ensures m'[c'[j]+1] == 8 * c'[j+1] && m'[c'[j+1]] == 8 * c'[j]
    {
      var a, b := if j < i then j else j + 1, if j + 1 < i then j + 1 else j + 2;
      assert c'[j] == c[a] && c'[j+1] == c[b];
      if j != i - 1 {
        assert b == a + 1;
        assert m[c[a]+1] == 8 * c[a+1] && m[c[a+1]] == 8 * c[a];
      }
    }
  }

  lemma UnlinkOther(m: seq<int>, c: seq<int>, i: int, d: seq<int>)
    requires Linked(m, c) && Linked(m, d) && Disjoint(c, d) && 0 < i < |c| - 1
    ensures Linked(Unlink(m, c[i-1], c[i+1]), d)
  {
  }

  lemma LinkInChain(m: seq<int>, c: seq<int>, p: int)
    requires Linked(m, c) && Spread(c) && |c| >= 2 && Disjoint(c, [p, p + 1]) && 0 <= p < |m| - 1
    ensures Linked(LinkIn(m, c[0], c[1], p), [c[0], p] + c[1..])
  {
    var m' := LinkIn(m, c[0], c[1], p);
    var c' := [c[0], p] + c[1..];
    assert [p, p + 1][0] == p && [p, p + 1][1] == p + 1;
    forall j | 0 <= j < |c'| - 1
      ensures m'[c'[j]+1] == 8 * c'[j+1] && m'[c'[j+1]] == 8 * c'[j]
    {
      if j > 1 {
        assert c'[j] == c[j-1] && c'[j+1] == c[j];
        assert m[c[j-1]+1] == 8 * c[j] && m[c[j]] == 8 * c[j-1];
      }
    }
  }

  lemma LinkInOther(m: seq<int>, c: seq<int>, p: int, d: seq<int>)
    requires Linked(m, c) && Linked(m, d) && Disjoint(c, d) && |c| >= 2
    requires Disjoint(d, [p, p + 1]) && 0 <= p < |m| - 1
    ensures Linked(LinkIn(m, c[0], c[1], p), d)
  {
    assert [p, p + 1][0] == p && [p, p + 1][1] == p + 1;
  }

  // ------------------------------------------------ chains inside a tiled heap

  // Node j of list k, sentinels included, and where it may lie.
  lemma NodePlace(h: Layout, k: int, j: int)
    requires Tiled(h) && Indexed(h) && 0 <= k < NUM_FL && 0 <= j < |Chain(h, k)|
    ensures var x := Chain(h, k)[j];
      if j == 0 then x == Pro(h.lo, k)
      else if j == |Chain(h, k)| - 1 then x == Epi(h.lo, k)
      else ListedAt(h, x, k) && x == h.lists[k][j-1] && x >= h.lo + 27
  {
    if 0 < j < |Chain(h, k)| - 1 {
      assert ListedAt(h, h.lists[k][j-1], k);
    }
  }

  lemma NodesApart(h: Layout, k: int, j: int, k': int, j': int)
    requires Tiled(h) && Indexed(h) && 0 <= k < NUM_FL && 0 <= j < |Chain(h, k)|
    requires 0 <= k' < NUM_FL && 0 <= j' < |Chain(h, k')|
    requires k != k' || j != j'
    ensures var x, y := Chain(h, k)[j], Chain(h, k')[j'];
      x != y && (j < |Chain(h, k)| - 1 ==> x + 1 != y)
  {
    NodePlace(h, k, j);
    NodePlace(h, k', j');
    var x, y := Chain(h, k)[j], Chain(h, k')[j'];
    if x in h.sz && y in h.sz {
      assert h.sz[x] + h.sz[y] > 0;
    }
  }

  lemma ChainsApart(h: Layout, k: int, k': int)
    requires Tiled(h) && Indexed(h) && 0 <= k < NUM_FL && 0 <= k' < NUM_FL
    ensures Spread(Chain(h, k))
    ensures k != k' ==> Disjoint(Chain(h, k), Chain(h, k'))
  {
    var c, d := Chain(h, k), Chain(h, k');
    forall a, b | 0 <= a < |c| && 0 <= b < |c| && a != b
      ensures c[a] != c[b] && (a < |c| - 1 ==> c[a] + 1 != c[b])
    {
      NodesApart(h, k, a, k, b);
    }
    if k != k' {
      forall a, b | 0 <= a < |c| && 0 <= b < |d|
        ensures c[a] != d[b] && (a < |c| - 1 ==> c[a] + 1 != d[b]) && (b < |d| - 1 ==> d[b] + 1 != c[a])
      {
        NodesApart(h, k, a, k', b);
        NodesApart(h, k', b, k, a);
      }
    }
  }

  // The first two words of a held block belong to no list.
  lemma HeldApart(h: Layout, k: int, p: int)
    requires Tiled(h) && Indexed(h) && 0 <= k < NUM_FL && p in h.out
    ensures Disjoint(Chain(h, k), [p, p + 1])
  {
    var c := Chain(h, k);
    var d := [p, p + 1];
    forall a, b | 0 <= a < |c| && 0 <= b < |d|
      ensures c[a] != d[b] && (a < |c| - 1 ==> c[a] + 1 != d[b]) && (b < |d| - 1 ==> d[b] + 1 != c[a])
    {
      NodePlace(h, k, a);
      if c[a] in h.sz {
        assert h.sz[p] + h.sz[c[a]] > 0;
      }
    }
  }

  // ------------------------------------------------------------ tags and links

  // A word that may hold a link: a sentinel word or one of the first two words of
  // a block x that is neither allocated nor held.
  ghost predicate LinkSlot(h: Layout, x: int, i: int)
  {
    || h.lo <= i < h.lo + 24
    || (x in h.sz && x !in h.live && x !in h.out && (4 <= h.sz[x] || x in h.tiny) && (i == x || i == x + 1))
  }

  // A link word is no tag, and no word of an allocated or held block.
  lemma WriteLink(m: seq<int>, h: Layout, x: int, i: int, v: int)
    requires Bounded(h) && Ordered(h.sz) && Parted(h) && Tags(m, h) && LinkSlot(h, x, i)
    ensures 0 <= i < |m|
    ensures Tags(m[i := v], h)
    ensures SameBlocks(m, m[i := v], h.live + h.out, h.sz)
  {
    var m' := m[i := v];
    forall q | q in h.sz
      ensures q !in h.out ==> TagsAt(m', h, q)
      ensures q in h.live + h.out ==> SameBlock(m, m', q, h.sz[q])
    {
      if x in h.sz { assert h.sz[x] + h.sz[q] > 0; }
      if q !in h.out { assert TagsAt(m, h, q); }
    }
  }

  lemma SameBlocksTrans(a: seq<int>, b: seq<int>, c: seq<int>, s: set<int>, sz: map<int, int>)
    requires SameBlocks(a, b, s, sz) && SameBlocks(b, c, s, sz)
    ensures SameBlocks(a, c, s, sz)
  {
    forall p | p in s && p in sz ensures SameBlock(a, c, p, sz[p]) {
      assert SameBlock(a, b, p, sz[p]) && SameBlock(b, c, p, sz[p]);
    }
  }

  lemma NodeSlot(h: Layout, k: int, j: int)
    requires Tiled(h) && Indexed(h) && 0 <= k < NUM_FL && 0 <= j < |Chain(h, k)|
    ensures var c := Chain(h, k);
      LinkSlot(h, c[j], c[j]) && (j < |c| - 1 ==> LinkSlot(h, c[j], c[j] + 1))
  {
    NodePlace(h, k, j);
  }

  // ------------------------------------------------------------------- remove

  function Removed(h: Layout, k: int, i: int): Layout
    requires 0 <= k < |h.lists| && 0 <= i < |h.lists[k]|
  {
    h.(lists := h.lists[k := h.lists[k][..i] + h.lists[k][i+1..]], out := h.out + {h.lists[k][i]},
      tiny := h.tiny - {h.lists[k][i]})
  }

  // Header, footer and the payload of block q after its two link words.
  ghost predicate SameInner(m: seq<int>, m': seq<int>, q: int, n: int)
  {
    && |m| == |m'| && 0 <= q - 1 < |m| && q + n - 1 <= |m|
    && m'[q-1] == m[q-1]
    && forall i | q + 2 <= i < q + n - 1 :: m'[i] == m[i]
  }

  ghost predicate SameInners(m: seq<int>, m': seq<int>, sz: map<int, int>)
  {
    forall q | q in sz :: SameInner(m, m', q, sz[q])
  }

  lemma UnlinkInners(m: seq<int>, h: Layout, k: int, i: int)
    requires Tiled(h) && Indexed(h) && Tags(m, h) && 0 <= k < NUM_FL && 0 <= i < |h.lists[k]|
    requires var c := Chain(h, k);
      0 <= c[i] && c[i] + 1 < |m| && 0 <= c[i+2] < |m|
    ensures var c := Chain(h, k);
      SameInners(m, Unlink(m, c[i], c[i+2]), h.sz)
  {
    forall q | q in h.sz
      ensures SameInner(m, Unlink(m, Chain(h, k)[i], Chain(h, k)[i+2]), q, h.sz[q])
    {
      NodeInner(h, k, i, q);
      NodeInner(h, k, i + 2, q);
    }
  }

  lemma LinkInInners(m: seq<int>, h: Layout, p: int)
    requires Tiled(h) && Indexed(h) && h.brk <= |m| && p in h.out && p + 1 < |m|
    requires var c := Chain(h, ClassOf(h.sz[p]));
      0 <= c[0] && c[0] + 1 < |m| && 0 <= c[1] < |m|
    ensures var c := Chain(h, ClassOf(h.sz[p]));
      SameInners(m, LinkIn(m, c[0], c[1], p), h.sz)
  {
    var k := ClassOf(h.sz[p]);
    var c := Chain(h, k);
    forall q | q in h.sz
      ensures SameInner(m, LinkIn(m, c[0], c[1], p), q, h.sz[q])
    {
      NodeInner(h, k, 0, q);
      NodeInner(h, k, 1, q);
      assert h.sz[p] + h.sz[q] > 0;
    }
  }

  // The links of a node are no inner words of any block.
  lemma NodeInner(h: Layout, k: int, j: int, q: int)
    requires Tiled(h) && Indexed(h) && 0 <= k < NUM_FL && 0 <= j < |Chain(h, k)| && q in h.sz
    ensures var x := Chain(h, k)[j];
      && x != q - 1 && !(q + 2 <= x < q + h.sz[q] - 1)
      && (j < |Chain(h, k)| - 1 ==> x + 1 != q - 1 && !(q + 2 <= x + 1 < q + h.sz[q] - 1))
  {
    NodePlace(h, k, j);
    var x := Chain(h, k)[j];
    if x in h.sz {
      assert h.sz[x] + h.sz[q] > 0;
    }
  }

  lemma UnlinkWF(m: seq<int>, h: Layout, k: int, i: int)
    requires WF(m, h) && 0 <= k < NUM_FL && 0 <= i < |h.lists[k]|
    ensures var p := h.lists[k][i];
      var c := Chain(h, k);
      && p in h.sz && p >= h.lo + 27 && 0 <= p && p + 1 < |m|
      && m[p] == 8 * c[i] && m[p+1] == 8 * c[i+2]
      && 0 <= c[i] && c[i] + 1 < |m| && 0 <= c[i+2] < |m|
      && WF(Unlink(m, c[i], c[i+2]), Removed(h, k, i))
      && SameBlocks(m, Unlink(m, c[i], c[i+2]), h.live + (h.out + {p}), h.sz)
      && SameInners(m, Unlink(m, c[i], c[i+2]), h.sz)
  {
    hide Tiled, Indexed, Tags, Chains, SameBlocks, SameInners, Unlink;
    LinksOf(m, h, k, i);
    RemovedIndexed(h, k, i);
    SameTiled(h, Removed(h, k, i));
    UnlinkTags(m, h, k, i);
    UnlinkChains(m, h, k, i);
    UnlinkInners(m, h, k, i);
  }

  // What PREV_FREE_BLK and NEXT_FREE_BLK read from a listed block.
  lemma LinksOf(m: seq<int>, h: Layout, k: int, i: int)
    requires Tiled(h) && Indexed(h) && Chains(m, h) && 0 <= k < NUM_FL && 0 <= i < |h.lists[k]|
    ensures |h.lists| == NUM_FL
    ensures var p := h.lists[k][i];
      var c := Chain(h, k);
      && p in h.sz && p >= h.lo + 27 && 0 <= p && p + 1 < |m|
      && m[p] == 8 * c[i] && m[p+1] == 8 * c[i+2]
      && 0 <= c[i] && c[i] + 1 < |m| && 0 <= c[i+2] < |m|
  {
    var c := Chain(h, k);
    NodePlace(h, k, i + 1);
    assert Linked(m, c);
    assert m[c[i]+1] == 8 * c[i+1] && m[c[i+1]] == 8 * c[i];
    assert m[c[i+1]+1] == 8 * c[i+2] && m[c[i+2]] == 8 * c[i+1];
  }

  // Two writes to link words, each of a node the index of h holds.
  lemma WriteLinks(m: seq<int>, h: Layout, x: int, i: int, v: int, y: int, j: int, w: int)
    requires Bounded(h) && Ordered(h.sz) && Parted(h) && Tags(m, h) && LinkSlot(h, x, i) && LinkSlot(h, y, j)
    ensures 0 <= i < |m| && 0 <= j < |m|
    ensures Tags(m[i := v][j := w], h)
    ensures SameBlocks(m, m[i := v][j := w], h.live + h.out, h.sz)
  {
    WriteLink(m, h, x, i, v);
    WriteLink(m[i := v], h, y, j, w);
    SameBlocksTrans(m, m[i := v], m[i := v][j := w], h.live + h.out, h.sz);
  }

  lemma UnlinkTags(m: seq<int>, h: Layout, k: int, i: int)
    requires Tags(m, h) && |h.lists| == NUM_FL && 0 <= k < NUM_FL && 0 <= i < |h.lists[k]|
    requires var c := Chain(h, k);
      0 <= c[i] && c[i] + 1 < |m| && 0 <= c[i+2] < |m|
    requires Tiled(Removed(h, k, i)) && Indexed(Removed(h, k, i))
    ensures var c := Chain(h, k);
      && Tags(Unlink(m, c[i], c[i+2]), Removed(h, k, i))
      && SameBlocks(m, Unlink(m, c[i], c[i+2]), h.live + (h.out + {h.lists[k][i]}), h.sz)
  {
    var c := Chain(h, k);
    var h' := Removed(h, k, i);
    var c' := Chain(h', k);
    assert c' == c[..i+1] + c[i+2..];
    assert c'[i] == c[i] && c'[i+1] == c[i+2];
    NodeSlot(h', k, i);
    NodeSlot(h', k, i + 1);
    WriteLinks(m, h', c[i], c[i] + 1, 8 * c[i+2], c[i+2], c[i+2], 8 * c[i]);
  }

  lemma RemovedListed(h: Layout, k: int, i: int)
    requires Indexed(h) && 0 <= k < NUM_FL && 0 <= i < |h.lists[k]|
    ensures var h' := Removed(h, k, i);
      && (forall k', j | 0 <= k' < NUM_FL && 0 <= j < |h'.lists[k']| :: ListedAt(h', h'.lists[k'][j], k'))
      && (forall k', a, b | 0 <= k' < NUM_FL && 0 <= a < b < |h'.lists[k']| :: h'.lists[k'][a] != h'.lists[k'][b])
  {
    var h' := Removed(h, k, i);
    var p := h.lists[k][i];
    assert ListedAt(h, p, k);
    forall k', j | 0 <= k' < NUM_FL && 0 <= j < |h'.lists[k']|
      ensures ListedAt(h', h'.lists[k'][j], k')
    {
      var j0 := if k' == k && j >= i then j + 1 else j;
      assert h'.lists[k'][j] == h.lists[k'][j0];
      assert ListedAt(h, h.lists[k'][j0], k');
    }
  }

  lemma RemovedIndexed(h: Layout, k: int, i: int)
    requires Indexed(h) && 0 <= k < NUM_FL && 0 <= i < |h.lists[k]|
    ensures Indexed(Removed(h, k, i))
  {
    var h' := Removed(h, k, i);
    var l' := h'.lists[k];
    RemovedListed(h, k, i);
    assert ListedAt(h, h.lists[k][i], k);
    forall q | q in h'.sz && q in h.lists[ClassOf(h.sz[q])] && q != h.lists[k][i]
      ensures q in h'.lists[ClassOf(h'.sz[q])]
    {
      var k' := ClassOf(h.sz[q]);
      var j :| 0 <= j < |h.lists[k']| && h.lists[k'][j] == q;
      if k' == k {
        assert l'[if j < i then j else j - 1] == q;
      }
    }
  }

  lemma UnlinkChains(m: seq<int>, h: Layout, k: int, i: int)
    requires Tiled(h) && Indexed(h) && Chains(m, h) && 0 <= k < NUM_FL && 0 <= i < |h.lists[k]|
    requires var c := Chain(h, k);
      0 <= c[i] && c[i] + 1 < |m| && 0 <= c[i+2] < |m|
    ensures var c := Chain(h, k);
      Chains(Unlink(m, c[i], c[i+2]), Removed(h, k, i))
  {
    var c := Chain(h, k);
    var h' := Removed(h, k, i);
    assert Linked(m, c);
    forall k' | 0 <= k' < NUM_FL
      ensures Linked(Unlink(m, c[i], c[i+2]), Chain(h', k'))
    {
      assert Linked(m, Chain(h, k'));
      ChainsApart(h, k, k');
      if k' == k {
        UnlinkChain(m, c, i + 1);
        assert Chain(h', k) == c[..i+1] + c[i+2..];
      } else {
        UnlinkOther(m, c, i + 1, Chain(h, k'));
        assert Chain(h', k') == Chain(h, k');
      }
    }
  }

  // ---------------------------------------------------------------------- add

  // A held block that is about to be indexed: tags written, and not the last block.
  ghost predicate Addable(m: seq<int>, h: Layout, p: int)
  {
    && p in h.out && p in h.sz && p + h.sz[p] < h.brk && p != h.last
    && Tagged(m, p, h.sz[p], 0)
  }

  function Pushed(h: Layout, k: int, p: int): Layout
    requires 0 <= k < |h.lists|
  {
    h.(lists := h.lists[k := [p] + h.lists[k]], out := h.out - {p},
       tiny := if p in h.sz && h.sz[p] == 3 then h.tiny + {p} else h.tiny)
  }

  lemma FrontLink(m: seq<int>, h: Layout, p: int)
    requires WF(m, h) && Addable(m, h, p)
    ensures |h.lists| == NUM_FL && h.live !! h.out && h.brk <= |m|
    ensures var c := Chain(h, ClassOf(h.sz[p]));
      0 <= c[0] && c[0] + 1 < |m| && m[c[0]+1] == 8 * c[1] && 0 <= c[1] < |m| && p + 1 < |m|
  {
    var c := Chain(h, ClassOf(h.sz[p]));
    assert Linked(m, c);
    assert m[c[0]+1] == 8 * c[1];
  }

  lemma LinkInWF(m: seq<int>, h: Layout, p: int)
    requires WF(m, h) && Addable(m, h, p)
    ensures var k := ClassOf(h.sz[p]);
      var c := Chain(h, k);
      && 0 <= c[0] && c[0] + 1 < |m| && m[c[0]+1] == 8 * c[1] && 0 <= c[1] < |m| && p + 1 < |m|
      && WF(LinkIn(m, c[0], c[1], p), Pushed(h, k, p))
      && SameBlocks(m, LinkIn(m, c[0], c[1], p), h.live + (h.out - {p}), h.sz)
      && SameInners(m, LinkIn(m, c[0], c[1], p), h.sz)
  {
    hide Tiled, Indexed, Tags, Chains, SameBlocks, SameInners, LinkIn;
    FrontLink(m, h, p);
    var k := ClassOf(h.sz[p]);
    var c := Chain(h, k);
    LinkInInners(m, h, p);
    PushedIndexed(m, h, p);
    SameTiled(h, Pushed(h, k, p));
    PushedTags(m, h, k, p);
    assert Chain(Pushed(h, k, p), k) == [c[0], p] + c[1..];
    LinkInTags(m, Pushed(h, k, p), k);
    LinkInChains(m, h, p);
  }

  lemma FrontSlots(h: Layout, k: int)
    requires Tiled(h) && Indexed(h) && 0 <= k < NUM_FL && |h.lists[k]| > 0
    ensures var c := Chain(h, k);
      LinkSlot(h, c[0], c[0] + 1) && LinkSlot(h, c[1], c[1]) && LinkSlot(h, c[1], c[1] + 1) && LinkSlot(h, c[2], c[2])
  {
    NodeSlot(h, k, 0);
    NodeSlot(h, k, 1);
    NodeSlot(h, k, 2);
  }

  // The four writes of add_to_free_list, seen from the index that already holds p
  // in front of list k.
  lemma LinkInTags(m: seq<int>, h: Layout, k: int)
    requires Tiled(h) && Indexed(h) && Tags(m, h) && 0 <= k < NUM_FL && |h.lists[k]| > 0
    ensures var c := Chain(h, k);
      && 0 <= c[0] && c[0] + 1 < |m| && 0 <= c[2] < |m| && 0 <= c[1] && c[1] + 1 < |m|
      && Tags(LinkIn(m, c[0], c[2], c[1]), h)
      && SameBlocks(m, LinkIn(m, c[0], c[2], c[1]), h.live + h.out, h.sz)
  {
    var c := Chain(h, k);
    FrontSlots(h, k);
    FourLinks(m, h, c[0], c[2], c[1]);
  }

  lemma FourLinks(m: seq<int>, h: Layout, pro: int, next: int, p: int)
    requires Bounded(h) && Ordered(h.sz) && Parted(h) && Tags(m, h)
    requires LinkSlot(h, pro, pro + 1) && LinkSlot(h, next, next) && LinkSlot(h, p, p) && LinkSlot(h, p, p + 1)
    requires 0 <= pro
    ensures pro + 1 < |m| && 0 <= next < |m| && 0 <= p && p + 1 < |m|
    ensures Tags(LinkIn(m, pro, next, p), h)
    ensures SameBlocks(m, LinkIn(m, pro, next, p), h.live + h.out, h.sz)
  {
    WriteLinks(m, h, pro, pro + 1, 8 * p, next, next, 8 * p);
    var m2 := m[pro + 1 := 8 * p][next := 8 * p];
    WriteLinks(m2, h, p, p, 8 * pro, p, p + 1, 8 * next);
    assert m2[p := 8 * pro][p + 1 := 8 * next] == LinkIn(m, pro, next, p);
    SameBlocksTrans(m, m2, LinkIn(m, pro, next, p), h.live + h.out, h.sz);
  }

  lemma PushedTags(m: seq<int>, h: Layout, k: int, p: int)
    requires Tiled(h) && 0 <= k < |h.lists| && Tags(m, h) && Addable(m, h, p) && h.live !! h.out
    ensures Tags(m, Pushed(h, k, p))
  {
  }

  lemma PushedListed(m: seq<int>, h: Layout, p: int)
    requires Tiled(h) && Listed(h) && Parted(h) && Addable(m, h, p)
    ensures Listed(Pushed(h, ClassOf(h.sz[p]), p))
  {
    var k := ClassOf(h.sz[p]);
    var h' := Pushed(h, k, p);
    assert forall j | 0 < j < |h'.lists[k]| :: h'.lists[k][j] == h.lists[k][j-1];
    forall k', j | 0 <= k' < NUM_FL && 0 <= j < |h'.lists[k']|
      ensures ListedAt(h', h'.lists[k'][j], k')
      ensures k' != k || j > 0 ==> h'.lists[k'][j] != p
    {
      if k' != k || j > 0 {
        assert ListedAt(h, h.lists[k'][if k' == k then j - 1 else j], k');
      }
    }
  }

  lemma PushedIndexed(m: seq<int>, h: Layout, p: int)
    requires Tiled(h) && Indexed(h) && Addable(m, h, p)
    ensures Indexed(Pushed(h, ClassOf(h.sz[p]), p))
  {
    var k := ClassOf(h.sz[p]);
    var h' := Pushed(h, k, p);
    PushedListed(m, h, p);
    forall q | q in h'.sz
      ensures q in h'.live || q in h'.out || q == h'.last || q in h'.lists[ClassOf(h'.sz[q])]
    {
      if q == p {
        assert h'.lists[k][0] == p;
      } else if q in h.lists[k] {
        var j :| 0 <= j < |h.lists[k]| && h.lists[k][j] == q;
        assert h'.lists[k][j+1] == q;
      }
    }
  }

  lemma LinkInChains(m: seq<int>, h: Layout, p: int)
    requires Tiled(h) && Indexed(h) && Chains(m, h) && Addable(m, h, p)
    requires var c := Chain(h, ClassOf(h.sz[p]));
      0 <= c[0] && c[0] + 1 < |m| && 0 <= c[1] < |m| && p + 1 < |m|
    ensures var k := ClassOf(h.sz[p]);
      var c := Chain(h, k);
      Chains(LinkIn(m, c[0], c[1], p), Pushed(h, k, p))
  {
    var k := ClassOf(h.sz[p]);
    var c := Chain(h, k);
    var h' := Pushed(h, k, p);
    assert Linked(m, c);
    forall k' | 0 <= k' < NUM_FL
      ensures Linked(LinkIn(m, c[0], c[1], p), Chain(h', k'))
    {
      assert Linked(m, Chain(h, k'));
      ChainsApart(h, k, k');
      HeldApart(h, k', p);
      if k' == k {
        LinkInChain(m, c, p);
        assert Chain(h', k) == [c[0], p] + c[1..];
      } else {
        LinkInOther(m, c, p, Chain(h, k'));
        assert Chain(h', k') == Chain(h, k');
      }
    }
  }
}
