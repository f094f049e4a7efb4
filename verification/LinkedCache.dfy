// cache.c as it runs: items relinked in place between the head and tail sentinels.
module LinkedCache {
  import opened Common
  import opened ObjectCache

  // lru_item_t; the sentinels have an entry too, which nothing reads.
  class Item {
    const entry: Entry
    var next: Item?
    var prev: Item?

    constructor (entry: Entry)
      ensures this.entry == entry
    {
      this.entry := entry;
      next, prev := null, null;
    }
  }

  // The items ns, each once, linked both ways in this order.
  ghost predicate Linked(ns: seq<Item>)
    reads ns
  {
    && (forall i {:trigger ns[i].next} | 0 <= i < |ns| - 1 :: ns[i].next == ns[i+1])
    && (forall i {:trigger ns[i].prev} | 0 < i < |ns| :: ns[i].prev == ns[i-1])
  }

  ghost predicate Distinct(ns: seq<Item>)
  {
    forall i, j | 0 <= i < j < |ns| :: ns[i] != ns[j]
  }

  // remove_item
  method RemoveItem(item: Item, ghost ns: seq<Item>, ghost k: nat)
    requires Linked(ns) && Distinct(ns) && 0 < k < |ns| - 1 && item == ns[k]
    modifies ns[k-1], ns[k+1]
    ensures Linked(Without(ns, k)) && Distinct(Without(ns, k))
  {
    var prev := item.prev;
    var next := item.next;
    assert prev == ns[k-1] && next == ns[k+1];
    prev.next := next;
    next.prev := prev;
    ghost var r := Without(ns, k);
    forall i {:trigger r[i].next} | 0 <= i < |r| - 1 ensures r[i].next == r[i+1] {
      assert r[i] == if i < k then ns[i] else ns[i+1];
    }
    forall i {:trigger r[i].prev} | 0 < i < |r| ensures r[i].prev == r[i-1] {
      assert r[i] == if i < k then ns[i] else ns[i+1];
    }
  }

  // move_item_front
  method MoveItemFront(head: Item, item: Item, ghost ns: seq<Item>)
    requires Linked(ns) && Distinct(ns) && |ns| >= 2 && head == ns[0] && item !in ns
    modifies head, ns[1], item
    ensures Linked([head, item] + ns[1..]) && Distinct([head, item] + ns[1..])
  {
    var first := head.next;
    assert first == ns[1];
    head.next := item;
    first.prev := item;
    item.prev := head;
    item.next := first;
    ghost var r := [head, item] + ns[1..];
    forall i {:trigger r[i].next} | 0 <= i < |r| - 1 ensures r[i].next == r[i+1] {
      assert i >= 2 ==> r[i] == ns[i-1];
    }
    forall i {:trigger r[i].prev} | 0 < i < |r| ensures r[i].prev == r[i-1] {
      assert i >= 2 ==> r[i] == ns[i-1];
    }
  }

  // The list the items between the sentinels stand for.
  function Entries(ns: seq<Item>): (l: seq<Entry>)
    requires |ns| >= 2
    ensures |l| == |ns| - 2
  {
    seq(|ns| - 2, i requires 0 <= i < |ns| - 2 => ns[i+1].entry)
  }

  lemma RemovedEntries(ns: seq<Item>, k: nat)
    requires 0 < k < |ns| - 1
    ensures Entries(Without(ns, k)) == Without(Entries(ns), k - 1)
    ensures Entries(ns)[k-1] == ns[k].entry
    ensures Without(ns, k)[0] == ns[0] && Without(ns, k)[|ns|-2] == ns[|ns|-1]
  {
    var a, b := Entries(Without(ns, k)), Without(Entries(ns), k - 1);
    forall i | 0 <= i < |a| ensures a[i] == b[i] {
      assert b[i] == if i < k - 1 then Entries(ns)[i] else Entries(ns)[i+1];
    }
  }

  lemma AddedEntries(ns: seq<Item>, item: Item)
    requires |ns| >= 2
    ensures var ms := [ns[0], item] + ns[1..];
      |ms| == |ns| + 1 && Entries(ms) == [item.entry] + Entries(ns) && ms[0] == ns[0] && ms[|ns|] == ns[|ns|-1]
  {
    var ms := [ns[0], item] + ns[1..];
    forall i | 0 < i < |ns| - 1 ensures Entries(ms)[i] == ([item.entry] + Entries(ns))[i] {
      assert ms[i+1] == ns[i];
    }
  }

  lemma RemovedGone(ns: seq<Item>, k: nat, owned: set<Item>)
    requires Distinct(ns) && k < |ns| && Within(ns, owned)
    ensures ns[k] !in Without(ns, k) && Within(Without(ns, k), owned)
  {
    var ms := Without(ns, k);
    forall i | 0 <= i < |ms| ensures ms[i] != ns[k] && ms[i] in owned {
      assert ms[i] == if i < k then ns[i] else ns[i+1];
    }
  }

  ghost predicate Within(ns: seq<Item>, owned: set<Item>)
  {
    forall i | 0 <= i < |ns| :: ns[i] in owned
  }

  lemma FrontSized(l: seq<Entry>, k: nat)
    requires Sized(l) && k < |l|
    ensures Sized(Front(l, k))
  {
  }

  // lru_t
  class Lru {
    const head: Item
    const tail: Item
    var size: int
    const maxSize: int
    ghost var nodes: seq<Item>      // head, the items, tail
    ghost var repr: set<Item>

    ghost predicate Ring()
      reads this, repr
    {
      && Within(nodes, repr) && |nodes| >= 2 && nodes[0] == head && nodes[|nodes|-1] == tail
      && Linked(nodes) && Distinct(nodes)
    }

    ghost function List(): seq<Entry>
      requires |nodes| >= 2
      reads this
    {
      Entries(nodes)
    }

    ghost predicate Valid()
      reads this, repr
    {
      Ring() && Sized(List()) && size == Total(List()) && size <= maxSize
    }

    // lru_init
    constructor (max: int)
      requires 0 <= max
      ensures Valid() && fresh(repr) && maxSize == max && List() == []
    {
      var h := new Item(Entry("", "", 0));
      var t := new Item(Entry("", "", 0));
      head, tail, size, maxSize, nodes, repr := h, t, 0, max, [h, t], {h, t};
      new;
      head.next := tail;
      tail.prev := head;
    }

    // remove_item on the item at position k
    method Detach(item: Item, ghost k: nat)
      requires Ring() && 0 < k < |nodes| - 1 && item == nodes[k]
      modifies this`nodes, repr
      ensures Ring() && nodes == Without(old(nodes), k) && item !in nodes
      ensures List() == Without(old(List()), k - 1)
    {
      hide Linked, Distinct, Without;
      RemovedEntries(nodes, k);
      RemovedGone(nodes, k, repr);
      InRepr(k - 1);
      InRepr(k + 1);
      RemoveItem(item, nodes, k);
      nodes := Without(nodes, k);
    }

    // move_item_front
    method Attach(item: Item)
      requires Ring() && item !in nodes
      modifies this`nodes, this`repr, repr, item
      ensures Ring() && nodes == [head, item] + old(nodes)[1..] && repr == old(repr) + {item}
      ensures List() == [item.entry] + old(List())
    {
      hide Linked, Distinct;
      AddedEntries(nodes, item);
      InRepr(0);
      InRepr(1);
      MoveItemFront(head, item, nodes);
      nodes, repr := [head, item] + nodes[1..], repr + {item};
    }

    lemma InRepr(k: nat)
      requires Within(nodes, repr) && k < |nodes|
      ensures nodes[k] in repr
    {
    }

    lemma Neighbours(k: nat)
      requires Ring() && k < |nodes| - 1
      ensures nodes[k].next == nodes[k+1] && tail.prev == nodes[|nodes|-2]
      ensures nodes[k+1] == tail <==> k + 1 == |nodes| - 1
    {
      assert nodes[|nodes|-1] == tail;
    }

    // lru_get, between P and V of the mutex
    method Get(key: string) returns (r: Option<Entry>)
      requires Valid()
      modifies this`nodes, this`repr, repr
      ensures Valid() && repr == old(repr) && (List(), r) == GetSpec(old(List()), key)
      ensures LookedUp(old(List()), key, List(), r)
    {
      hide LookedUp, Total, Find, Linked, Distinct, Sized, Without, Within;
      ghost var k := 1;
      GetMeans(List(), key);
      Neighbours(0);
      var item := head.next;
      while item != tail
        invariant unchanged(this) && unchanged(repr) && 1 <= k < |nodes| && item == nodes[k]
        invariant item == tail <==> k == |nodes| - 1
        invariant Find(List(), key) >= k - 1
        decreases |nodes| - k
      {
        Neighbours(k);
        RemovedEntries(nodes, k);
        if item.entry.key == key {
          FindAt(List(), key, k - 1);
          FrontKeepsTotal(List(), k - 1);
          FrontSized(List(), k - 1);
          InRepr(k);
          ghost var owned := repr;
          Detach(item, k);
          Attach(item);
          assert repr == owned;
          return Some(item.entry);
        }
        item := item.next;
        k := k + 1;
      }
      r := None;
    }

    // Taking the least recent item out, in the loop of lru_put.
    method EvictLast()
      requires Valid() && List() != []
      modifies this`nodes, this`size, repr
      ensures Valid() && List() == old(List())[..|old(List())|-1]
    {
      hide Total, Linked, Distinct, Without, Within;
      ghost var k := |nodes| - 2;
      Neighbours(k);
      RemovedEntries(nodes, k);
      LastOut(List());
      var itemToRemove := tail.prev;
      size := size - itemToRemove.entry.size;
      Detach(itemToRemove, k);
    }

    // lru_put, between P and V of the mutex, when the memory for the item is there
    method Put(key: string, resp: string, bytes: int)
      requires Valid() && 0 <= bytes <= maxSize
      modifies this`nodes, this`size, this`repr, repr
      ensures Valid() && fresh(repr - old(repr))
      ensures List() == PutSpec(old(List()), maxSize, Entry(key, resp, bytes))
      ensures Inserted(old(List()), maxSize, Entry(key, resp, bytes), List())
    {
      hide Inserted, Linked, Distinct, Total, Within, Entries;
      var item := new Item(Entry(key, resp, bytes));
      ghost var room := maxSize - bytes;
      PutMeans(List(), maxSize, item.entry);
      while size + bytes > maxSize
        invariant Valid() && repr == old(repr) && item !in repr
        invariant Trim(List(), room) == Trim(old(List()), room)
        decreases |nodes|
      {
        TrimNext(List(), room);
        EvictLast();
      }
      TrimDone(List(), room);
      TotalCons(item.entry, List());
      NewItem(item);
      Attach(item);
      size := size + bytes;
    }

    lemma NewItem(item: Item)
      requires Within(nodes, repr) && item !in repr
      ensures item !in nodes
    {
    }
  }

  lemma LastOut(l: seq<Entry>)
    requires l != [] && Sized(l)
    ensures var k := |l| - 1;
      Without(l, k) == l[..k] && Total(l) == Total(l[..k]) + l[k].size && Sized(l[..k])
  {
  }

  lemma TrimNext(l: seq<Entry>, room: int)
    requires 0 <= room < Total(l)
    ensures l != [] && Trim(l, room) == Trim(l[..|l|-1], room)
  {
  }

  lemma TrimDone(l: seq<Entry>, room: int)
    requires 0 <= room && Total(l) <= room
    ensures Trim(l, room) == l
  {
  }
}
