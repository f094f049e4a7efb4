// The cache simulator cachelab-handout/csim.c: one growable array of entries with
// access times, proved to be the LRU cache of LruStack.
module CacheSim {
  import opened Arith
  import opened LruStack

  const INT_MAX := 0x7FFF_FFFF
  const INIT_CACHE_CAP := 8

  // unsigned long shifts
  function Shl(x: int, k: int): int { (x * Pow2(k)) % 0x1_0000_0000_0000_0000 }
  function Shr(x: int, k: int): int
    requires Pow2(k) > 0
  {
    x / Pow2(k)
  }

  datatype Config = Config(set_bits: int, block_bits: int, associativity: int) {
    // The ranges for which compute_id shifts by 1 to 63 places.
    predicate Ok() { 1 <= set_bits && 0 <= block_bits && set_bits + block_bits <= 63 }
  }

  // compute_id
  function ComputeId(c: Config, addr: int): Id
    requires c.Ok()
  {
    Pow2Positive(64 - c.set_bits);
    Pow2Positive(c.block_bits + c.set_bits);
    var tag_bits := 64 - c.block_bits - c.set_bits;
    Id(Shr(Shl(addr, tag_bits), 64 - c.set_bits), Shr(addr, 64 - tag_bits))
  }

  // The shifts of compute_id take the set index and the tag out of the block number.
  lemma IdOfBlock(c: Config, addr: int)
    requires c.Ok() && 0 <= addr < 0x1_0000_0000_0000_0000
    ensures Pow2(c.block_bits) > 0 && Pow2(c.set_bits) > 0
    ensures var block := addr / Pow2(c.block_bits);
      ComputeId(c, addr) == Id(block % Pow2(c.set_bits), block / Pow2(c.set_bits))
  {
    var s, b, t := c.set_bits, c.block_bits, 64 - c.block_bits - c.set_bits;
    Pow2Positive(s); Pow2Positive(b); Pow2Positive(t);
    Pow2Add(b, s);
    Pow2Add(b + s, t);
    Pow2Add(b, t);
    TwoTo64();
    var S, B, T := Pow2(s), Pow2(b), Pow2(t);
    assert 0x1_0000_0000_0000_0000 == (B * S) * T;
    Scale(addr, T, B * S);
    assert Shl(addr, t) == (addr % (B * S)) * T;
    assert Pow2(64 - s) == B * T;
    Scale(addr % (B * S), T, B);
    DivOfMod(addr, B, S);
  }

  // Two addresses get the same identifier exactly when they are in the same block.
  lemma IdsSeparateBlocks(c: Config, a: int, b: int)
    requires c.Ok() && 0 <= a < 0x1_0000_0000_0000_0000 && 0 <= b < 0x1_0000_0000_0000_0000
    ensures Pow2(c.block_bits) > 0
    ensures ComputeId(c, a) == ComputeId(c, b) <==> a / Pow2(c.block_bits) == b / Pow2(c.block_bits)
    ensures Pow2(c.set_bits) > 0 && 0 <= ComputeId(c, a).set_index < Pow2(c.set_bits)
  {
    IdOfBlock(c, a);
    IdOfBlock(c, b);
    QuotientAndRemainder(a / Pow2(c.block_bits), b / Pow2(c.block_bits), Pow2(c.set_bits));
  }

  // ------------------------------------------------------------------- the store

  datatype Entry = Entry(addr: int, id: Id, last_access: int)
  datatype Result = Result(hits: int, misses: int, evictions: int)

  function Ids(es: seq<Entry>): set<Id>
  {
    set i | 0 <= i < |es| :: es[i].id
  }

  // The entries are the resident blocks, each once, with the time of its last access.
  ghost predicate Stores(es: seq<Entry>, t: seq<Id>, e: int)
  {
    && (forall i, j | 0 <= i < j < |es| :: es[i].id != es[j].id)
    && (forall i | 0 <= i < |es| :: Resident(t, e, es[i].id) && es[i].last_access == Last(t, es[i].id))
    && (forall x | x in t && Resident(t, e, x) :: x in Ids(es))
  }

  lemma HasEntry(es: seq<Entry>, t: seq<Id>, e: int, x: Id) returns (i: int)
    requires Stores(es, t, e) && Resident(t, e, x)
    ensures 0 <= i < |es| && es[i].id == x
  {
    assert x in Ids(es);
    i :| 0 <= i < |es| && es[i].id == x;
  }

  lemma HasWay(t: seq<Id>, e: int, x: Id)
    requires Resident(t, e, x)
    ensures 1 <= e
  {
  }

  lemma StoresHit(es: seq<Entry>, t: seq<Id>, e: int, id: Id, f: int)
    requires Stores(es, t, e) && 0 <= f < |es| && es[f].id == id
    ensures Stores(es[f := es[f].(last_access := |t|)], t + [id], e)
  {
    hide Resident;
    assert Resident(t, e, es[f].id);
    HasWay(t, e, es[f].id);
    var es' := es[f := es[f].(last_access := |t|)];
    forall i | 0 <= i < |es'|
      ensures Resident(t + [id], e, es'[i].id) && es'[i].last_access == Last(t + [id], es'[i].id)
    {
      HitKeeps(t, e, id, es[i].id);
      SinceSnoc(t, id, es[i].id);
    }
    forall x | x in t + [id] && Resident(t + [id], e, x) ensures x in Ids(es') {
      ResidentSnoc(t, e, id, x);
      var i := HasEntry(es, t, e, x);
      assert es'[i].id == x;
    }
  }

  lemma StoresInsert(es: seq<Entry>, t: seq<Id>, e: int, id: Id, n: Entry)
    requires Stores(es, t, e) && !Resident(t, e, id) && |Row(t, e, id.set_index)| < e
    requires n.id == id && n.last_access == |t|
    ensures Stores(es + [n], t + [id], e)
  {
    var es' := es + [n];
    forall i | 0 <= i < |es'|
      ensures Resident(t + [id], e, es'[i].id) && es'[i].last_access == Last(t + [id], es'[i].id)
    {
      SinceSnoc(t, id, es'[i].id);
      if i < |es| { MissKeeps(t, e, id, es[i].id); }
    }
    forall x | x in t + [id] && Resident(t + [id], e, x) ensures x in Ids(es') {
      ResidentSnoc(t, e, id, x);
      if x == id {
        assert es'[|es|].id == x;
      } else {
        var i := HasEntry(es, t, e, x);
        assert es'[i].id == x;
      }
    }
  }

  lemma StoresEvict(es: seq<Entry>, t: seq<Id>, e: int, id: Id, k: int, n: Entry)
    requires 1 <= e && Stores(es, t, e) && !Resident(t, e, id) && |Row(t, e, id.set_index)| == e
    requires 0 <= k < |es| && es[k].id.set_index == id.set_index
    requires forall i | 0 <= i < |es| && es[i].id.set_index == id.set_index :: es[k].last_access <= es[i].last_access
    requires n.id == id && n.last_access == |t|
    ensures Stores(es[k := n], t + [id], e)
  {
    var es' := es[k := n];
    var lru := es[k].id;
    forall y | y in Row(t, e, id.set_index) ensures Last(t, lru) <= Last(t, y) {
      var i := HasEntry(es, t, e, y);
      assert es[k].last_access <= es[i].last_access;
    }
    forall i | 0 <= i < |es'|
      ensures Resident(t + [id], e, es'[i].id) && es'[i].last_access == Last(t + [id], es'[i].id)
    {
      SinceSnoc(t, id, es'[i].id);
      if i != k { MissEvicts(t, e, id, lru, es[i].id); }
    }
    forall x | x in t + [id] && Resident(t + [id], e, x) ensures x in Ids(es') {
      ResidentSnoc(t, e, id, x);
      if x == id {
        assert es'[k].id == x;
      } else {
        MissEvicts(t, e, id, lru, x);
        var i := HasEntry(es, t, e, x);
        assert es'[i].id == x;
      }
    }
  }

  // Entries of one set, and the blocks they hold.
  function CountSet(es: seq<Entry>, s: int): int
  {
    if es == [] then 0 else CountSet(es[..|es|-1], s) + if es[|es|-1].id.set_index == s then 1 else 0
  }

  function IdsIn(es: seq<Entry>, s: int): set<Id>
  {
    set i | 0 <= i < |es| && es[i].id.set_index == s :: es[i].id
  }

  lemma {:induction false} CountIsCard(es: seq<Entry>, s: int)
    requires forall i, j | 0 <= i < j < |es| :: es[i].id != es[j].id
    ensures CountSet(es, s) == |IdsIn(es, s)|
  {
    if es != [] {
      var fs := es[..|es|-1];
      var last := es[|es|-1];
      CountIsCard(fs, s);
      IdsInSnoc(fs, last, s);
      assert fs + [last] == es;
    }
  }

  lemma IdsInSnoc(fs: seq<Entry>, last: Entry, s: int)
    requires forall i | 0 <= i < |fs| :: fs[i].id != last.id
    ensures last.id !in IdsIn(fs, s)
    ensures IdsIn(fs + [last], s) == IdsIn(fs, s) + if last.id.set_index == s then {last.id} else {}
  {
    var es := fs + [last];
    forall x | x in IdsIn(fs, s) ensures x in IdsIn(es, s) {
      var i :| 0 <= i < |fs| && fs[i].id.set_index == s && fs[i].id == x;
      assert es[i].id == x;
    }
    assert es[|fs|] == last;
  }

  lemma CountIsRow(es: seq<Entry>, t: seq<Id>, e: int, s: int)
    requires Stores(es, t, e)
    ensures CountSet(es, s) == |Row(t, e, s)|
  {
    CountIsCard(es, s);
    assert IdsIn(es, s) == Row(t, e, s) by {
      forall x | x in Row(t, e, s) ensures x in IdsIn(es, s) {
        var i := HasEntry(es, t, e, x);
      }
    }
  }

  lemma TimesBelow(es: seq<Entry>, t: seq<Id>, e: int)
    requires Stores(es, t, e)
    ensures forall i | 0 <= i < |es| :: es[i].last_access < |t|
  {
  }

  lemma NotStored(es: seq<Entry>, t: seq<Id>, e: int, x: Id)
    requires Stores(es, t, e) && forall i | 0 <= i < |es| :: es[i].id != x
    ensures !Resident(t, e, x)
  {
    assert x !in Ids(es);
  }

  class LruCache {
    var store: array<Entry>
    const conf: Config
    var cap: int
    var len: int
    ghost var trace: seq<Id>

    ghost predicate Valid()
      reads this, store
    {
      && conf.Ok() && 0 <= conf.associativity && (conf.associativity == 0 ==> 0 < cap)
      && 0 <= len <= cap == store.Length
      && Stores(store[..len], trace, conf.associativity)
      && forall i | 0 <= i < len :: store[i].id == ComputeId(conf, store[i].addr)
    }

    // new_lru_cache
    constructor (conf: Config, cap: int)
      requires conf.Ok() && 0 <= conf.associativity && 0 <= cap && (conf.associativity == 0 ==> 0 < cap)
      ensures Valid() && trace == [] && len == 0 && this.conf == conf && fresh(store)
    {
      this.conf := conf;
      this.cap, len := cap, 0;
      store := new Entry[cap](_ => Entry(0, Id(0, 0), 0));
      trace := [];
    }

    // The scan of access_entry: the entry of id, the entries of its set, and the least
    // recently used one of them.
    method Scan(id: Id) returns (found: int, num_set_entries: int, earliest_index: int)
      requires Valid() && |trace| < INT_MAX
      ensures found == -1 ==> !Resident(trace, conf.associativity, id)
      ensures found != -1 ==> 0 <= found < len && store[found].id == id
      ensures num_set_entries == |Row(trace, conf.associativity, id.set_index)|
      ensures num_set_entries == 0 ==> earliest_index == 0
      ensures 0 < num_set_entries ==> 0 <= earliest_index < len && store[earliest_index].id.set_index == id.set_index
      ensures 0 < num_set_entries ==> forall i | 0 <= i < len && store[i].id.set_index == id.set_index ::
        store[earliest_index].last_access <= store[i].last_access
    {
      hide Stores, Resident, Row;
      ghost var es := store[..len];
      TimesBelow(es, trace, conf.associativity);
      CountIsRow(es, trace, conf.associativity, id.set_index);
      found, num_set_entries, earliest_index := -1, 0, 0;
      var earliest_access := INT_MAX;
      var i := 0;
      while i < len
        invariant 0 <= i <= len
        invariant found == -1 ==> forall j | 0 <= j < i :: store[j].id != id
        invariant found != -1 ==> 0 <= found < i && store[found].id == id
        invariant num_set_entries == CountSet(es[..i], id.set_index) && 0 <= num_set_entries
        invariant num_set_entries == 0 ==> earliest_access == INT_MAX && earliest_index == 0
        invariant 0 < num_set_entries ==>
          0 <= earliest_index < i && store[earliest_index].id.set_index == id.set_index
          && earliest_access == store[earliest_index].last_access
        invariant forall j | 0 <= j < i && store[j].id.set_index == id.set_index ::
          earliest_access <= store[j].last_access
      {
        var entry := store[i];
        assert es[..i+1][..i] == es[..i] && entry == es[i];
        if entry.id.set_index == id.set_index {
          if entry.last_access < earliest_access {
            earliest_access := entry.last_access;
            earliest_index := i;
          }
          if entry.id.tag == id.tag {
            found := i;
          }
          num_set_entries := num_set_entries + 1;
        }
        i := i + 1;
      }
      assert es[..len] == es;
      if found == -1 {
        assert forall j | 0 <= j < |es| :: es[j] == store[j];
        NotStored(es, trace, conf.associativity, id);
      }
    }

    // realloc of the store to 2 * cap + 1 entries.
    method Grow()
      requires Valid()
      modifies this`store, this`cap
      ensures Valid() && fresh(store) && len < cap && cap == 2 * old(cap) + 1
      ensures store[..len] == old(store[..len])
    {
      hide Stores;
      ghost var es := store[..len];
      var bigger := new Entry[2 * cap + 1](_ => Entry(0, Id(0, 0), 0));
      forall i | 0 <= i < len {
        bigger[i] := store[i];
      }
      cap := 2 * cap + 1;
      assert bigger[..len] == es;
      store := bigger;
      assert store[..len] == es;
    }

    // access_entry
    method AccessEntry(addr: int, access_time: int) returns (result: Result)
      requires Valid() && access_time == |trace| < INT_MAX && 0 <= addr
      modifies this, store
      ensures Valid() && (store == old(store) || fresh(store))
      ensures trace == old(trace) + [ComputeId(conf, addr)]
      ensures result.hits == (if Resident(old(trace), conf.associativity, ComputeId(conf, addr)) then 1 else 0)
      ensures result.misses == 1 - result.hits
      ensures result.evictions == if result.misses == 1
        && |Row(old(trace), conf.associativity, ComputeId(conf, addr).set_index)| == conf.associativity then 1 else 0
      ensures len == old(len) + result.misses - result.evictions
      // with no ways at all every access misses and counts an eviction of nothing
      ensures conf.associativity == 0 ==> result == Result(0, 1, 1) && len == 0
    {
      hide Stores, Resident, Row;
      var id := ComputeId(conf, addr);
      ghost var es, t, e := store[..len], trace, conf.associativity;
      var found, num_set_entries, earliest_index := Scan(id);
      StoredResident(es, t, e);
      RowFits(es, t, e, id.set_index);
      if e == 0 {
        NoWays(es, t, id);
        NeverResident(t, id);
        CountIsRow(es, t, e, id.set_index);
      }
      if found >= 0 {
        assert es[found] == store[found];
        StoresHit(es, t, e, id, found);
        store[found] := store[found].(last_access := access_time);
        assert store[..len] == es[found := es[found].(last_access := |t|)];
        trace := trace + [id];
        return Result(1, 0, 0);
      }
      var new_entry := Entry(addr, id, access_time);
      if num_set_entries == conf.associativity {
        if num_set_entries > 0 {
          assert es[earliest_index] == store[earliest_index];
          assert forall i | 0 <= i < |es| :: es[i] == store[i];
          StoresEvict(es, t, e, id, earliest_index, new_entry);
        } else {
          NoWays(es, t, id);
        }
        store[earliest_index] := new_entry;
        assert store[..len] == if num_set_entries > 0 then es[earliest_index := new_entry] else es;
        trace := trace + [id];
        return Result(0, 1, 1);
      }
      if len == cap {
        Grow();
      }
      StoresInsert(es, t, e, id, new_entry);
      store[len] := new_entry;
      len := len + 1;
      assert store[..len] == es + [new_entry];
      trace := trace + [id];
      return Result(0, 1, 0);
    }

    // modify_entry: a load and a store, the second of which always hits.
    method ModifyEntry(addr: int, access_time: int) returns (result: Result)
      requires Valid() && access_time == |trace| < INT_MAX && 0 <= addr
      modifies this, store
      ensures Valid() && (store == old(store) || fresh(store))
      ensures trace == old(trace) + [ComputeId(conf, addr)]
      ensures result.hits == 1 + if Resident(old(trace), conf.associativity, ComputeId(conf, addr)) then 1 else 0
      ensures result.misses == 2 - result.hits
      ensures result.evictions == if result.misses == 1
        && |Row(old(trace), conf.associativity, ComputeId(conf, addr).set_index)| == conf.associativity then 1 else 0
      ensures len == old(len) + result.misses - result.evictions
    {
      result := AccessEntry(addr, access_time);
      result := result.(hits := result.hits + 1);
    }
  }

  // With no ways at all nothing is ever resident; csim still counts an eviction.
  lemma NoWays(es: seq<Entry>, t: seq<Id>, id: Id)
    requires Stores(es, t, 0)
    ensures es == [] && Stores(es, t + [id], 0)
  {
    if es != [] { NeverResident(t, es[0].id); }
  }

  lemma NeverResident(t: seq<Id>, x: Id)
    ensures !Resident(t, 0, x)
  {
  }

  lemma StoredResident(es: seq<Entry>, t: seq<Id>, e: int)
    requires Stores(es, t, e)
    ensures forall i | 0 <= i < |es| :: Resident(t, e, es[i].id)
  {
  }

  // A row never holds more than e blocks: its oldest block has all the others since.
  lemma RowFits(es: seq<Entry>, t: seq<Id>, e: int, s: int)
    requires Stores(es, t, e) && 0 <= e
    ensures |Row(t, e, s)| <= e
  {
    if Row(t, e, s) != {} {
      var x := OldestOf(Row(t, e, s), t);
      OldestSince(t, e, x);
    }
  }

  lemma {:induction false} OldestOf(row: set<Id>, t: seq<Id>) returns (x: Id)
    requires row != {}
    ensures x in row && forall y | y in row :: Last(t, x) <= Last(t, y)
    decreases |row|
  {
    x :| x in row;
    if row != {x} {
      var z := OldestOf(row - {x}, t);
      if Last(t, z) < Last(t, x) { x := z; }
    }
  }

  // Entries with a set index below n, set by set.
  function CountBelow(es: seq<Entry>, n: int): int
  {
    if n <= 0 then 0 else CountBelow(es, n - 1) + CountSet(es, n - 1)
  }

  lemma {:induction false} CountBelowSnoc(es: seq<Entry>, x: Entry, n: int)
    ensures CountBelow(es + [x], n) == CountBelow(es, n) + if 0 <= x.id.set_index < n then 1 else 0
  {
    if n > 0 {
      CountBelowSnoc(es, x, n - 1);
      assert (es + [x])[..|es|] == es;
    }
  }

  lemma {:induction false} EveryEntryCounted(es: seq<Entry>, n: int)
    requires 0 <= n && forall i | 0 <= i < |es| :: 0 <= es[i].id.set_index < n
    ensures CountBelow(es, n) == |es|
  {
    if es == [] {
      NothingBelow(n);
    } else {
      var fs := es[..|es|-1];
      EveryEntryCounted(fs, n);
      CountBelowSnoc(fs, es[|es|-1], n);
      assert fs + [es[|es|-1]] == es;
    }
  }

  lemma {:induction false} NothingBelow(n: int)
    ensures CountBelow([], n) == 0
  {
    if n > 0 { NothingBelow(n - 1); }
  }

  lemma {:induction false} RowsBelow(es: seq<Entry>, t: seq<Id>, e: int, n: int)
    requires Stores(es, t, e) && 0 <= e && 0 <= n
    ensures CountBelow(es, n) <= e * n
  {
    hide Stores, Row, CountSet;
    if n > 0 {
      RowsBelow(es, t, e, n - 1);
      CountIsRow(es, t, e, n - 1);
      RowFits(es, t, e, n - 1);
      OneMore(e, n);
    }
  }

  lemma OneMore(e: int, n: int)
    ensures e * n == e * (n - 1) + e
  {
  }

  // A cache of 2^s sets of e ways holds at most e * 2^s entries.
  lemma StoreBound(es: seq<Entry>, t: seq<Id>, e: int, n: int)
    requires Stores(es, t, e) && 0 <= e && 0 <= n
    requires forall i | 0 <= i < |t| :: 0 <= t[i].set_index < n
    ensures |es| <= e * n
  {
    forall i | 0 <= i < |es| ensures 0 <= es[i].id.set_index < n {
      assert Resident(t, e, es[i].id);
    }
    EveryEntryCounted(es, n);
    RowsBelow(es, t, e, n);
  }

  // ------------------------------------------------------------------- whole runs

  datatype Line = Skipped | Load(addr: int) | Store(addr: int) | Modify(addr: int)

  lemma {:induction false} DistinctIds(es: seq<Entry>)
    requires forall i, j | 0 <= i < j < |es| :: es[i].id != es[j].id
    ensures |Ids(es)| == |es|
  {
    if es != [] {
      var fs, last := es[..|es|-1], es[|es|-1];
      DistinctIds(fs);
      assert Ids(es) == Ids(fs) + {last.id} by {
        forall x | x in Ids(es) ensures x in Ids(fs) + {last.id} {
          var i :| 0 <= i < |es| && es[i].id == x;
          if i < |fs| { assert fs[i].id == x; }
        }
        forall x | x in Ids(fs) ensures x in Ids(es) {
          var i :| 0 <= i < |fs| && fs[i].id == x;
          assert es[i].id == x;
        }
      }
      assert last.id !in Ids(fs);
    }
  }

  // As many entries as resident blocks.
  lemma StoreIsResidents(es: seq<Entry>, t: seq<Id>, e: int)
    requires Stores(es, t, e)
    ensures Ids(es) == Residents(t, e) && |es| == |Residents(t, e)|
  {
    DistinctIds(es);
    forall x | x in Residents(t, e) ensures x in Ids(es) {
      var i := HasEntry(es, t, e, x);
    }
  }

  // The identifiers a trace file accesses; blank lines and instruction fetches do not.
  function Accesses(c: Config, lines: seq<Line>): seq<Id>
    requires c.Ok()
  {
    if lines == [] then []
    else
      var line := lines[|lines|-1];
      Accesses(c, lines[..|lines|-1]) + if line.Skipped? then [] else [ComputeId(c, line.addr)]
  }

  function Modifies(lines: seq<Line>): int
  {
    if lines == [] then 0 else Modifies(lines[..|lines|-1]) + if lines[|lines|-1].Modify? then 1 else 0
  }

  lemma HitsSnoc(t: seq<Id>, e: int, id: Id)
    ensures Hits(t + [id], e) == Hits(t, e) + if Resident(t, e, id) then 1 else 0
  {
    assert (t + [id])[..|t|] == t;
  }

  lemma {:induction false} NoHits(t: seq<Id>)
    ensures Hits(t, 0) == 0
  {
    if t != [] { NoHits(t[..|t|-1]); }
  }

  lemma LinesSnoc(c: Config, lines: seq<Line>, i: int)
    requires c.Ok() && 0 <= i < |lines|
    ensures Accesses(c, lines[..i+1])
      == Accesses(c, lines[..i]) + if lines[i].Skipped? then [] else [ComputeId(c, lines[i].addr)]
    ensures Modifies(lines[..i+1]) == Modifies(lines[..i]) + if lines[i].Modify? then 1 else 0
  {
    assert lines[..i+1][..i] == lines[..i];
  }

  // process_line: the hits, misses and evictions of one line.
  method ProcessLine(cache: LruCache, line: Line, line_num: int) returns (result: Result)
    requires cache.Valid() && line_num == |cache.trace| < INT_MAX
    requires !line.Skipped? && 0 <= line.addr < 0x1_0000_0000_0000_0000
    modifies cache, cache.store
    ensures cache.Valid() && (cache.store == old(cache.store) || fresh(cache.store))
    ensures cache.trace == old(cache.trace) + [ComputeId(cache.conf, line.addr)]
    ensures result.hits == Hits(cache.trace, cache.conf.associativity) -
      Hits(old(cache.trace), cache.conf.associativity)
      + if line.Modify? then 1 else 0
    ensures result.hits + result.misses == if line.Modify? then 2 else 1
    ensures cache.len == old(cache.len) + result.misses - result.evictions
    ensures 0 <= ComputeId(cache.conf, line.addr).set_index < Pow2(cache.conf.set_bits)
  {
    hide Stores, Resident, Row, ComputeId;
    IdsSeparateBlocks(cache.conf, line.addr, line.addr);
    HitsSnoc(cache.trace, cache.conf.associativity, ComputeId(cache.conf, line.addr));
    if line.Modify? {
      result := cache.ModifyEntry(line.addr, line_num);
    } else {
      result := cache.AccessEntry(line.addr, line_num);
    }
  }

  // The totals of run over a whole trace: hits and misses are those of an LRU cache,
  // every miss filled an entry or evicted one, and the store never outgrows the cache.
  method Run(conf: Config, lines: seq<Line>) returns (total: Result)
    requires conf.Ok() && 0 <= conf.associativity && |lines| < INT_MAX
    requires forall i | 0 <= i < |lines| && !lines[i].Skipped? :: 0 <= lines[i].addr < 0x1_0000_0000_0000_0000
    ensures var ids := Accesses(conf, lines);
      && total.hits == Hits(ids, conf.associativity) + Modifies(lines)
      && total.misses == |ids| - Hits(ids, conf.associativity)
    ensures total.misses - total.evictions == |Residents(Accesses(conf, lines), conf.associativity)|
    ensures 0 <= total.misses - total.evictions <= conf.associativity * Pow2(conf.set_bits)
    ensures conf.associativity == 0 ==> total.evictions == total.misses == |Accesses(conf, lines)|
  {
    hide Stores, Resident, Residents, Row, ComputeId, Hits, Accesses, Modifies;
    var cache := new LruCache(conf, INIT_CACHE_CAP);
    total := Result(0, 0, 0);
    var line_num := 0;
    var i := 0;
    NoLines(conf, lines);
    while i < |lines|
      invariant 0 <= i <= |lines| && 0 <= line_num <= i
      invariant cache.Valid() && cache.conf == conf && fresh(cache) && fresh(cache.store)
      invariant cache.trace == Accesses(conf, lines[..i]) && line_num == |cache.trace|
      invariant forall k | 0 <= k < |cache.trace| :: 0 <= cache.trace[k].set_index < Pow2(conf.set_bits)
      invariant total.hits == Hits(cache.trace, conf.associativity) + Modifies(lines[..i])
      invariant total.misses == |cache.trace| - Hits(cache.trace, conf.associativity)
      invariant total.misses - total.evictions == cache.len
    {
      LinesSnoc(conf, lines, i);
      if !lines[i].Skipped? {
        var result := ProcessLine(cache, lines[i], line_num);
        line_num := line_num + 1;
        total := Result(total.hits + result.hits, total.misses + result.misses, total.evictions + result.evictions);
      }
      i := i + 1;
    }
    assert lines[..|lines|] == lines;
    Pow2Positive(conf.set_bits);
    NoHits(cache.trace);
    StoreIsResidents(cache.store[..cache.len], cache.trace, conf.associativity);
    StoreBound(cache.store[..cache.len], cache.trace, conf.associativity, Pow2(conf.set_bits));
  }

  lemma NoLines(c: Config, lines: seq<Line>)
    requires c.Ok()
    ensures Accesses(c, lines[..0]) == [] && Modifies(lines[..0]) == 0 && Hits([], c.associativity) == 0
  {
  }
}
