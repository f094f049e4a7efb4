// The least-recently-used policy on a stream of block identifiers: which blocks an
// E-way cache holds after the stream, in closed form and as the textbook stack.
module LruStack {

  datatype Id = Id(set_index: int, tag: int)

  // The distinct blocks of x's set accessed since the last access to x.
  function Since(t: seq<Id>, x: Id): set<Id>
  {
    if t == [] then {}
    else
      var last := t[|t|-1];
      if last == x then {}
      else Since(t[..|t|-1], x) + if last.set_index == x.set_index then {last} else {}
  }

  // Seen before, and fewer than e other blocks of its set since.
  predicate Resident(t: seq<Id>, e: int, x: Id)
  {
    x in t && |Since(t, x)| < e
  }

  function Residents(t: seq<Id>, e: int): set<Id>
  {
    set x | x in t && Resident(t, e, x)
  }

  // The position of the last access to x, or -1.
  function Last(t: seq<Id>, x: Id): (n: int)
    ensures -1 <= n < |t|
    ensures n >= 0 ==> t[n] == x
    ensures n < 0 <==> x !in t
  {
    if t == [] then -1
    else if t[|t|-1] == x then |t| - 1
    else Last(t[..|t|-1], x)
  }

  lemma SinceSnoc(t: seq<Id>, id: Id, x: Id)
    ensures Since(t + [id], x) == if id == x then {}
      else Since(t, x) + if id.set_index == x.set_index then {id} else {}
    ensures Last(t + [id], x) == if id == x then |t| else Last(t, x)
  {
    assert (t + [id])[..|t|] == t;
  }

  // Since is recency: y was accessed after the last access to x.
  lemma {:induction false} SinceByTime(t: seq<Id>, x: Id, y: Id)
    requires x in t && x != y
    ensures y in Since(t, x) <==> y.set_index == x.set_index && Last(t, x) < Last(t, y)
  {
    var s := t[..|t|-1];
    var last := t[|t|-1];
    assert t == s + [last];
    if last != x {
      assert x in s;
      SinceByTime(s, x, y);
    }
  }

  lemma {:induction false} SinceSeen(t: seq<Id>, x: Id)
    ensures forall y | y in Since(t, x) :: y in t && y != x && y.set_index == x.set_index
  {
    if t != [] && t[|t|-1] != x {
      SinceSeen(t[..|t|-1], x);
    }
  }

  // Of two blocks of a set, the one accessed later has fewer blocks since.
  lemma SinceNested(t: seq<Id>, x: Id, y: Id)
    requires x in t && y in t && x.set_index == y.set_index && Last(t, x) < Last(t, y)
    ensures Since(t, y) + {y} <= Since(t, x) && y !in Since(t, y)
  {
    SinceByTime(t, x, y);
    SinceSeen(t, y);
    forall z | z in Since(t, y) ensures z in Since(t, x) {
      SinceByTime(t, y, z);
      if z == x { SinceByTime(t, y, x); }
      SinceByTime(t, x, z);
    }
  }

  lemma Smaller<T>(a: set<T>, b: set<T>)
    requires a <= b
    ensures |a| <= |b| && (|a| == |b| ==> a == b)
  {
    assert b == a + (b - a);
    assert a !! (b - a);
  }

  // Everything accessed since a resident block is resident.
  lemma SinceResident(t: seq<Id>, e: int, x: Id, y: Id)
    requires Resident(t, e, x) && y in Since(t, x)
    ensures Resident(t, e, y)
  {
    SinceSeen(t, x);
    SinceByTime(t, x, y);
    SinceNested(t, x, y);
    Smaller(Since(t, y) + {y}, Since(t, x));
  }

  // ------------------------------------------------------------- one more access

  lemma ResidentSnoc(t: seq<Id>, e: int, id: Id, x: Id)
    requires 1 <= e
    ensures x == id ==> Resident(t + [id], e, x)
    ensures x.set_index != id.set_index ==> (Resident(t + [id], e, x) <==> Resident(t, e, x))
    ensures x != id && Resident(t + [id], e, x) ==> Resident(t, e, x)
  {
    SinceSnoc(t, id, x);
    if x != id { Smaller(Since(t, x), Since(t + [id], x)); }
  }

  // A hit moves no block out.
  lemma HitKeeps(t: seq<Id>, e: int, id: Id, x: Id)
    requires Resident(t, e, id) && Resident(t, e, x)
    ensures Resident(t + [id], e, x)
  {
    SinceSnoc(t, id, x);
    if x != id && x.set_index == id.set_index && id !in Since(t, x) {
      SinceByTime(t, x, id);
      assert Last(t, id) != Last(t, x);
      SinceNested(t, id, x);
      Smaller(Since(t, x) + {x}, Since(t, id));
    } else {
      assert x != id ==> Since(t + [id], x) == Since(t, x);
    }
  }

  // The resident blocks of one set.
  function Row(t: seq<Id>, e: int, s: int): set<Id>
  {
    set x | x in Residents(t, e) && x.set_index == s
  }

  lemma SinceInRow(t: seq<Id>, e: int, x: Id)
    requires Resident(t, e, x)
    ensures Since(t, x) <= Row(t, e, x.set_index) - {x}
  {
    SinceSeen(t, x);
    forall y | y in Since(t, x) ensures y in Row(t, e, x.set_index) - {x} {
      SinceResident(t, e, x, y);
    }
  }

  // The least recently used block of a set has the whole rest of the row since it.
  lemma OldestSince(t: seq<Id>, e: int, x: Id)
    requires Resident(t, e, x)
    requires forall y | y in Row(t, e, x.set_index) :: Last(t, x) <= Last(t, y)
    ensures Since(t, x) == Row(t, e, x.set_index) - {x}
    ensures |Row(t, e, x.set_index)| == |Since(t, x)| + 1 <= e
  {
    SinceInRow(t, e, x);
    forall y | y in Row(t, e, x.set_index) - {x} ensures y in Since(t, x) {
      assert Last(t, y) != Last(t, x);
      SinceByTime(t, x, y);
    }
    assert Row(t, e, x.set_index) == Since(t, x) + {x};
  }

  // A miss in a row that is not full moves no block out.
  lemma MissKeeps(t: seq<Id>, e: int, id: Id, x: Id)
    requires !Resident(t, e, id) && Resident(t, e, x)
    requires |Row(t, e, id.set_index)| < e
    ensures Resident(t + [id], e, x)
  {
    SinceSnoc(t, id, x);
    if x.set_index == id.set_index {
      SinceInRow(t, e, x);
      Smaller(Since(t, x) + {x}, Row(t, e, id.set_index));
      Smaller(Since(t + [id], x), Since(t, x) + {id});
    }
  }

  // A miss in a full row moves out the least recently used block and no other.
  lemma MissEvicts(t: seq<Id>, e: int, id: Id, lru: Id, x: Id)
    requires !Resident(t, e, id) && Resident(t, e, x) && Resident(t, e, lru) && lru.set_index == id.set_index
    requires |Row(t, e, id.set_index)| == e
    requires forall y | y in Row(t, e, id.set_index) :: Last(t, lru) <= Last(t, y)
    ensures Resident(t + [id], e, x) <==> x != lru
  {
    SinceSnoc(t, id, x);
    if x == lru {
      OldestSince(t, e, x);
      assert Since(t + [id], x) == Since(t, x) + {id};
    } else if x.set_index == id.set_index {
      YoungerSince(t, e, lru, x);
      Smaller(Since(t + [id], x), Since(t, x) + {id});
    }
  }

  // Any other block of the row has at least two blocks fewer since than the row holds.
  lemma YoungerSince(t: seq<Id>, e: int, lru: Id, x: Id)
    requires Resident(t, e, x) && Resident(t, e, lru) && x != lru && x.set_index == lru.set_index
    requires Last(t, lru) <= Last(t, x)
    ensures |Since(t, x)| + 2 <= |Row(t, e, x.set_index)|
  {
    SinceInRow(t, e, x);
    assert Last(t, lru) != Last(t, x);
    SinceByTime(t, x, lru);
    hide Resident, Since;
    var s := Since(t, x) + {x};
    assert |s| == |Since(t, x)| + 1 && |s + {lru}| == |s| + 1;
    assert lru in Row(t, e, x.set_index) by { InRow(t, e, lru); }
    assert x in Row(t, e, x.set_index) by { InRow(t, e, x); }
    Smaller(s + {lru}, Row(t, e, x.set_index));
  }

  lemma InRow(t: seq<Id>, e: int, x: Id)
    requires Resident(t, e, x)
    ensures x in Row(t, e, x.set_index)
  {
  }

  // ------------------------------------------------------------- stack inclusion

  // Any block an e-way cache holds, an (e+1)-way cache holds after the same stream.
  lemma Inclusion(t: seq<Id>, e: int)
    ensures Residents(t, e) <= Residents(t, e + 1)
  {
  }

  // Accesses that find their block, over a whole stream.
  function Hits(t: seq<Id>, e: int): int
  {
    if t == [] then 0
    else Hits(t[..|t|-1], e) + if Resident(t[..|t|-1], e, t[|t|-1]) then 1 else 0
  }

  // More ways never miss more.
  lemma {:induction false} MoreWaysMissLess(t: seq<Id>, e: int, f: int)
    requires e <= f
    ensures |t| - Hits(t, f) <= |t| - Hits(t, e)
  {
    if t != [] {
      MoreWaysMissLess(t[..|t|-1], e, f);
    }
  }

  // ------------------------------------------------------------- textbook stack

  function Remove(s: seq<Id>, x: Id): seq<Id>
  {
    if s == [] then [] else if s[0] == x then s[1..] else [s[0]] + Remove(s[1..], x)
  }

  // Blocks of one set, most recently used first.
  function Stack(t: seq<Id>, s: int): seq<Id>
  {
    if t == [] then []
    else
      var id := t[|t|-1];
      var below := Stack(t[..|t|-1], s);
      if id.set_index == s then [id] + Remove(below, id) else below
  }

  // The blocks above x, when x is in the stack.
  function Above(s: seq<Id>, x: Id): set<Id>
  {
    if s == [] || s[0] == x then {} else {s[0]} + Above(s[1..], x)
  }

  ghost predicate Distinct(s: seq<Id>)
  {
    forall i, j | 0 <= i < j < |s| :: s[i] != s[j]
  }

  lemma {:induction false} RemoveMembers(s: seq<Id>, id: Id)
    requires Distinct(s)
    ensures forall y :: y in Remove(s, id) <==> y in s && y != id
  {
    if s != [] {
      RemoveMembers(s[1..], id);
      assert forall y :: y in s <==> y == s[0] || y in s[1..];
      if s[0] != id {
        assert forall y :: y in Remove(s, id) <==> y == s[0] || y in Remove(s[1..], id);
      }
    }
  }

  lemma {:induction false} RemoveDistinct(s: seq<Id>, id: Id)
    requires Distinct(s)
    ensures Distinct(Remove(s, id))
  {
    if s != [] && s[0] != id {
      RemoveDistinct(s[1..], id);
      RemoveMembers(s[1..], id);
      var r := Remove(s[1..], id);
      assert s[0] !in s[1..];
      assert forall j | 0 <= j < |r| :: r[j] in r && r[j] in s[1..] && r[j] != s[0];
    }
  }

  lemma {:induction false} RemoveAbove(s: seq<Id>, id: Id, x: Id)
    requires Distinct(s) && x in s && x != id
    ensures Above(Remove(s, id), x) == Above(s, x) - {id}
  {
    if s[0] != id {
      assert Remove(s, id)[1..] == Remove(s[1..], id);
      if s[0] != x { RemoveAbove(s[1..], id, x); }
    } else {
      AboveSeen(s[1..], x);
      assert id !in s[1..];
    }
  }

  lemma {:induction false} AboveSeen(s: seq<Id>, x: Id)
    ensures forall y | y in Above(s, x) :: y in s
  {
    if s != [] && s[0] != x { AboveSeen(s[1..], x); }
  }

  // The stack holds the blocks of its set, and above each one exactly the blocks
  // accessed since.
  lemma {:induction false} StackIsRecency(t: seq<Id>, s: int)
    ensures Distinct(Stack(t, s))
    ensures forall x :: x in Stack(t, s) <==> x in t && x.set_index == s
    ensures forall x | x in t && x.set_index == s :: Above(Stack(t, s), x) == Since(t, x)
  {
    if t != [] {
      var u := t[..|t|-1];
      var id := t[|t|-1];
      assert t == u + [id];
      StackIsRecency(u, s);
      if id.set_index == s {
        var below := Stack(u, s);
        RemoveMembers(below, id);
        RemoveDistinct(below, id);
        assert Stack(t, s)[1..] == Remove(below, id);
        forall x | x in t && x.set_index == s ensures Above(Stack(t, s), x) == Since(t, x) {
          if x != id {
            assert x in below;
            RemoveAbove(below, id, x);
          }
        }
      } else {
        forall x | x in t && x.set_index == s ensures Above(Stack(t, s), x) == Since(t, x) && x in u {
        }
      }
    }
  }

  lemma {:induction false} AboveAt(s: seq<Id>, i: int)
    requires Distinct(s) && 0 <= i < |s|
    ensures |Above(s, s[i])| == i
  {
    if i > 0 {
      AboveAt(s[1..], i - 1);
      AboveBefore(s[1..], i - 1, s[0]);
      assert s[0] != s[i];
    }
  }

  lemma {:induction false} AboveBefore(s: seq<Id>, i: int, y: Id)
    requires 0 <= i < |s| && y !in s
    ensures y !in Above(s, s[i])
  {
    AboveSeen(s, s[i]);
  }

  // An e-way cache holds the top e of each set's stack.
  lemma ResidentIsTop(t: seq<Id>, e: int, x: Id)
    requires 0 <= e
    ensures var st := Stack(t, x.set_index);
      Resident(t, e, x) <==> exists i | 0 <= i < |st| :: i < e && st[i] == x
  {
    var st := Stack(t, x.set_index);
    StackIsRecency(t, x.set_index);
    if x in t {
      var i :| 0 <= i < |st| && st[i] == x;
      AboveAt(st, i);
    }
  }
}
