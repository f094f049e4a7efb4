// The proxy's object cache, proxylab-handout/cache.c: a doubly linked list between two
// sentinels, proved to be a recency list bounded in bytes.
module ObjectCache {
  import opened Common

  datatype Entry = Entry(key: string, resp: string, size: int)

  // ----------------------------------------------------------------- recency lists

  function Total(l: seq<Entry>): int
  {
    if l == [] then 0 else Total(l[..|l|-1]) + l[|l|-1].size
  }

  // The position of the first entry for the key, or the length.
  function Find(l: seq<Entry>, key: string): (k: nat)
    ensures k <= |l| && (k < |l| ==> l[k].key == key) && forall i | 0 <= i < k :: l[i].key != key
  {
    if l == [] then 0 else if l[0].key == key then 0 else 1 + Find(l[1..], key)
  }

  function Without<T>(l: seq<T>, k: nat): (r: seq<T>)
    requires k < |l|
    ensures |r| == |l| - 1
  {
    l[..k] + l[k+1..]
  }

  function Front(l: seq<Entry>, k: nat): (r: seq<Entry>)
    requires k < |l|
    ensures |r| == |l|
  {
    [l[k]] + Without(l, k)
  }

  predicate Sized(l: seq<Entry>) { forall i | 0 <= i < |l| :: 0 <= l[i].size }

  // Dropping the least recent entries until the rest fits into room bytes.
  function Trim(l: seq<Entry>, room: int): (r: seq<Entry>)
    requires 0 <= room
    ensures r <= l
  {
    if Total(l) <= room then l else Trim(l[..|l|-1], room)
  }

  function GetSpec(l: seq<Entry>, key: string): (seq<Entry>, Option<Entry>)
  {
    var k := Find(l, key);
    if k < |l| then (Front(l, k), Some(l[k])) else (l, None)
  }

  function PutSpec(l: seq<Entry>, max: int, e: Entry): seq<Entry>
    requires 0 <= e.size <= max
  {
    [e] + Trim(l, max - e.size)
  }

  // The least index with the key.
  ghost predicate FirstAt(l: seq<Entry>, key: string, i: nat)
  {
    i < |l| && l[i].key == key && forall j | 0 <= j < i :: l[j].key != key
  }

  // What a lookup in l answers and leaves, on the list itself: it fails exactly if no
  // entry has the key, and otherwise gives the first one that has and moves it to the front.
  ghost predicate LookedUp(l: seq<Entry>, key: string, m: seq<Entry>, r: Option<Entry>)
  {
    && (r.Some? <==> exists i :: 0 <= i < |l| && l[i].key == key)
    && (r.None? ==> m == l)
    && (forall i: nat | FirstAt(l, key, i) :: r == Some(l[i]) && m == [l[i]] + l[..i] + l[i+1..])
  }

  // What an insertion leaves: behind the new entry the longest beginning of the list that
  // fits with it.
  ghost predicate Inserted(l: seq<Entry>, max: int, e: Entry, m: seq<Entry>)
  {
    && 0 < |m| <= |l| + 1 && m[0] == e && m[1..] == l[..|m|-1]
    && e.size + Total(l[..|m|-1]) <= max
    && (forall n | |m| <= n <= |l| :: e.size + Total(l[..n]) > max)
  }

  lemma GetMeans(l: seq<Entry>, key: string)
    ensures LookedUp(l, key, GetSpec(l, key).0, GetSpec(l, key).1)
  {
    hide Find;
    var k := Find(l, key);
    assert k < |l| ==> l[k].key == key;
    forall i: nat | FirstAt(l, key, i)
      ensures GetSpec(l, key) == ([l[i]] + l[..i] + l[i+1..], Some(l[i]))
    {
      FindAt(l, key, i);
      assert Front(l, i) == [l[i]] + l[..i] + l[i+1..];
    }
  }

  lemma PutMeans(l: seq<Entry>, max: int, e: Entry)
    requires 0 <= e.size <= max && Sized(l)
    ensures Inserted(l, max, e, PutSpec(l, max, e))
  {
    hide Total, Trim;
    var t := Trim(l, max - e.size);
    TrimIsShortest(l, max - e.size);
    assert t == l[..|t|] && PutSpec(l, max, e)[1..] == t;
  }

  lemma {:induction false} TotalCons(e: Entry, l: seq<Entry>)
    ensures Total([e] + l) == e.size + Total(l)
  {
    var m := [e] + l;
    if l == [] {
      assert m[..|m|-1] == [];
    } else {
      assert m[..|m|-1] == [e] + l[..|l|-1];
      TotalCons(e, l[..|l|-1]);
    }
  }

  lemma {:induction false} TotalAppend(l: seq<Entry>, m: seq<Entry>)
    ensures Total(l + m) == Total(l) + Total(m)
  {
    if m == [] {
      assert l + m == l;
    } else {
      assert (l + m)[..|l+m|-1] == l + m[..|m|-1];
      TotalAppend(l, m[..|m|-1]);
    }
  }

  // What is evicted is exactly the shortest least-recent end whose removal makes room.
  lemma {:induction false} TrimIsShortest(l: seq<Entry>, room: int)
    requires 0 <= room && Sized(l)
    ensures Total(Trim(l, room)) <= room
    ensures forall n | |Trim(l, room)| < n <= |l| :: Total(l[..n]) > room
  {
    if Total(l) > room {
      var m := l[..|l|-1];
      TrimIsShortest(m, room);
      forall n | |Trim(l, room)| < n <= |l| ensures Total(l[..n]) > room {
        if n == |l| {
          assert l[..n] == l;
        } else {
          assert l[..n] == m[..n];
        }
      }
    }
  }

  lemma FrontKeepsTotal(l: seq<Entry>, k: nat)
    requires k < |l|
    ensures Total(Front(l, k)) == Total(l)
  {
    hide Total;
    MovedTotal(l[..k], l[k], l[k+1..]);
    Middle(l, k);
  }

  lemma MovedTotal(x: seq<Entry>, e: Entry, y: seq<Entry>)
    ensures Total([e] + (x + y)) == Total(x + ([e] + y))
  {
    hide Total;
    TotalCons(e, x + y);
    TotalAppend(x, y);
    TotalCons(e, y);
    TotalAppend(x, [e] + y);
  }

  lemma Middle(l: seq<Entry>, k: nat)
    requires k < |l|
    ensures l == l[..k] + ([l[k]] + l[k+1..])
  {
  }

  // -------------------------------------------------------------------- whole runs

  datatype Op = Get(key: string) | Put(e: Entry)

  predicate OpsOk(ops: seq<Op>, max: int) { forall i | 0 <= i < |ops| :: OpOk(ops[i], max) }

  predicate OpOk(o: Op, max: int) { o.Put? ==> 0 <= o.e.size <= max }

  function Apply(l: seq<Entry>, o: Op, max: int): seq<Entry>
    requires OpOk(o, max)
  {
    match o
      case Get(key) => GetSpec(l, key).0
      case Put(e) => PutSpec(l, max, e)
  }

  // The list after the operations, oldest operation first.
  function After(ops: seq<Op>, max: int): seq<Entry>
    requires OpsOk(ops, max)
  {
    if ops == [] then [] else Apply(After(ops[..|ops|-1], max), ops[|ops|-1], max)
  }

  function LastPut(ops: seq<Op>, key: string): Option<Entry>
  {
    if ops == [] then None
    else
      var o := ops[|ops|-1];
      if o.Put? && o.e.key == key then Some(o.e) else LastPut(ops[..|ops|-1], key)
  }

  lemma FindAt(l: seq<Entry>, key: string, k: nat)
    requires k < |l| && l[k].key == key && forall i | 0 <= i < k :: l[i].key != key
    ensures Find(l, key) == k
  {
    hide Find;
    var f := Find(l, key);
    assert f < |l| ==> l[f].key == key;
  }

  lemma FrontAt(l: seq<Entry>, k: nat, i: nat)
    requires k < |l| && i < |l|
    ensures Front(l, k)[i] == if i == 0 then l[k] else if i <= k then l[i-1] else l[i]
  {
  }

  // Moving the first entry for a key to the front changes no other key's first entry.
  lemma FrontFinds(l: seq<Entry>, key: string, other: string)
    requires Find(l, key) < |l|
    ensures var m := Front(l, Find(l, key));
      && (Find(m, other) < |m| <==> Find(l, other) < |l|)
      && (Find(m, other) < |m| ==> m[Find(m, other)] == l[Find(l, other)])
  {
    hide Find, Front;
    var k := Find(l, key);
    var m := Front(l, k);
    var j := Find(l, other);
    forall i {:trigger m[i]} | 0 <= i < |l| ensures m[i] == if i == 0 then l[k] else if i <= k then l[i-1] else l[i] {
      FrontAt(l, k, i);
    }
    if other == key {
      FindAt(m, other, 0);
    } else if j < |l| {
      FindAt(m, other, if j < k then j + 1 else j);
    }
  }

  lemma PrefixFinds(l: seq<Entry>, m: seq<Entry>, key: string)
    requires m <= l
    ensures Find(m, key) < |m| ==> Find(l, key) < |l| && m[Find(m, key)] == l[Find(l, key)]
  {
    hide Find;
    if Find(m, key) < |m| {
      assert forall i | 0 <= i <= Find(m, key) :: l[i] == m[i];
      FindAt(l, key, Find(m, key));
    }
  }

  lemma ConsFinds(e: Entry, l: seq<Entry>, key: string)
    ensures Find([e] + l, key) == if e.key == key then 0 else 1 + Find(l, key)
  {
    assert ([e] + l)[1..] == l;
  }

  // The list is consistent with a history in which last was the latest put for the key.
  ghost predicate Consistent(l: seq<Entry>, key: string, last: Option<Entry>, max: int)
  {
    && (Find(l, key) < |l| ==> last == Some(l[Find(l, key)]))
    && Total(l) <= max && Sized(l)
  }

  lemma GetConsistent(l: seq<Entry>, k: string, key: string, last: Option<Entry>, max: int)
    requires Consistent(l, key, last, max)
    ensures Consistent(GetSpec(l, k).0, key, last, max)
  {
    hide Find, Total;
    if Find(l, k) < |l| {
      FrontFinds(l, k, key);
      FrontKeepsTotal(l, Find(l, k));
    }
  }

  lemma PutConsistent(l: seq<Entry>, e: Entry, key: string, last: Option<Entry>, max: int)
    requires 0 <= e.size <= max && Consistent(l, key, last, max)
    ensures Consistent(PutSpec(l, max, e), key, if e.key == key then Some(e) else last, max)
  {
    hide Find, Total, Trim;
    var t := Trim(l, max - e.size);
    TrimIsShortest(l, max - e.size);
    TotalCons(e, t);
    PrefixFinds(l, t, key);
    ConsFinds(e, t, key);
  }

  lemma ApplyConsistent(l: seq<Entry>, o: Op, key: string, last: Option<Entry>, max: int)
    requires OpOk(o, max) && Consistent(l, key, last, max)
    ensures Consistent(Apply(l, o, max), key, if o.Put? && o.e.key == key then Some(o.e) else last, max)
  {
    hide Consistent, GetSpec, PutSpec;
    match o
      case Get(k) => GetConsistent(l, k, key, last, max);
      case Put(e) => PutConsistent(l, e, key, last, max);
  }

  // The answer of a lookup after any operations, with duplicate keys in the list or not:
  // if the list has any entry for the key, it is the entry last put for it.
  lemma AnswerIsLatest(ops: seq<Op>, max: int, key: string)
    requires OpsOk(ops, max) && 0 <= max
    ensures var l, r := After(ops, max), GetSpec(After(ops, max), key).1;
      && (r.Some? <==> exists i :: 0 <= i < |l| && l[i].key == key)
      && (r.Some? ==> exists i: nat :: LatestAt(ops, key, i) && r.value == ops[i].e)
  {
    hide After, Find, Total, Front;
    var l := After(ops, max);
    GetsLatest(ops, max, key);
    GetMeans(l, key);
    if Find(l, key) < |l| { var i := LastPutAt(ops, key); }
  }

  // The last operation that put an entry for the key.
  ghost predicate LatestAt(ops: seq<Op>, key: string, i: nat)
  {
    && i < |ops| && ops[i].Put? && ops[i].e.key == key
    && forall j | i < j < |ops| :: ops[j].Put? ==> ops[j].e.key != key
  }

  lemma {:induction false} LastPutAt(ops: seq<Op>, key: string) returns (i: nat)
    requires LastPut(ops, key).Some?
    ensures LatestAt(ops, key, i) && ops[i].e == LastPut(ops, key).value
  {
    i := |ops| - 1;
    if !(ops[i].Put? && ops[i].e.key == key) { i := LastPutAt(ops[..i], key); }
  }

  // What is kept between operations for that: the first entry for a key is the one last
  // put for it, and the list is within its bound.
  lemma {:induction false} GetsLatest(ops: seq<Op>, max: int, key: string)
    requires OpsOk(ops, max) && 0 <= max
    ensures Consistent(After(ops, max), key, LastPut(ops, key), max)
  {
    hide Consistent, Apply, OpOk;
    if ops == [] {
      EmptyConsistent(key, max);
    } else {
      GetsLatest(ops[..|ops|-1], max, key);
      ApplyConsistent(After(ops[..|ops|-1], max), ops[|ops|-1], key, LastPut(ops[..|ops|-1], key), max);
    }
  }

  lemma EmptyConsistent(key: string, max: int)
    requires 0 <= max
    ensures Consistent([], key, None, max)
  {
  }

  // When each entry of the list was last put or found.
  function Touch(ts: seq<int>, l: seq<Entry>, o: Op, max: int, now: int): (r: seq<int>)
    requires OpOk(o, max) && |ts| == |l|
    ensures |r| == |Apply(l, o, max)|
  {
    match o
      case Get(key) =>
        var k := Find(l, key);
        if k < |l| then [now] + Without(ts, k) else ts
      case Put(e) => [now] + ts[..|Trim(l, max - e.size)|]
  }

  function Touched(ops: seq<Op>, max: int): (ts: seq<int>)
    requires OpsOk(ops, max)
    ensures |ts| == |After(ops, max)|
  {
    if ops == [] then []
    else
      var before := ops[..|ops|-1];
      Touch(Touched(before, max), After(before, max), ops[|ops|-1], max, |ops|)
  }

  ghost predicate Recent(ts: seq<int>, now: int)
  {
    && (forall i | 0 <= i < |ts| :: ts[i] <= now)
    && forall i, j | 0 <= i < j < |ts| :: ts[i] > ts[j]
  }

  lemma TouchRecent(ts: seq<int>, l: seq<Entry>, o: Op, max: int, now: int)
    requires OpOk(o, max) && |ts| == |l| && Recent(ts, now - 1)
    ensures Recent(Touch(ts, l, o, max, now), now)
  {
    hide Find, Trim, Apply;
    var r := Touch(ts, l, o, max, now);
    if o.Get? && Find(l, o.key) < |l| {
      var k := Find(l, o.key);
      forall i | 0 < i < |r| ensures r[i] == if i - 1 < k then ts[i-1] else ts[i] {
        assert r[i] == Without(ts, k)[i-1];
      }
    }
  }

  // The list is in order of last use, so what Trim drops is least recently used.
  lemma {:induction false} MostRecentFirst(ops: seq<Op>, max: int)
    requires OpsOk(ops, max)
    ensures Recent(Touched(ops, max), |ops|)
  {
    hide Touch, Apply, Recent, OpOk;
    if ops == [] {
      NoneRecent();
    } else {
      var before := ops[..|ops|-1];
      MostRecentFirst(before, max);
      TouchRecent(Touched(before, max), After(before, max), ops[|ops|-1], max, |ops|);
    }
  }

  lemma NoneRecent()
    ensures Recent([], 0)
  {
  }
}
