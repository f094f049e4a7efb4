// The K-best sampler of malloclab-handout/fcyc.c: values[] always holds the kbest
// smallest samples in order.
module KBest {

  predicate Sorted(s: seq<real>) { forall i, j | 0 <= i < j < |s| :: s[i] <= s[j] }

  // v placed after everything not larger.
  function Insert(s: seq<real>, v: real): (r: seq<real>)
    ensures |r| == |s| + 1
  {
    if s == [] || s[|s|-1] <= v then s + [v] else Insert(s[..|s|-1], v) + [s[|s|-1]]
  }

  function Sort(samples: seq<real>): (r: seq<real>)
    ensures |r| == |samples|
  {
    if samples == [] then [] else Insert(Sort(samples[..|samples|-1]), samples[|samples|-1])
  }

  function Least(x: nat, y: nat): nat { if x <= y then x else y }

  // The k smallest samples, or all while there are fewer.
  function Best(samples: seq<real>, k: nat): seq<real>
  {
    Sort(samples)[..Least(k, |samples|)]
  }

  lemma {:induction false} InsertSorted(s: seq<real>, v: real)
    requires Sorted(s)
    ensures Sorted(Insert(s, v)) && multiset(Insert(s, v)) == multiset(s) + multiset{v}
    ensures forall x <- Insert(s, v) :: x in s || x == v
  {
    if s != [] && s[|s|-1] > v {
      var t, m := s[..|s|-1], s[|s|-1];
      assert s == t + [m];
      InsertSorted(t, v);
      var r := Insert(t, v);
      forall i | 0 <= i < |r| ensures r[i] <= m {
        assert r[i] in r;
      }
    }
  }

  // Sort is what its name says.
  lemma {:induction false} SortSorts(samples: seq<real>)
    ensures Sorted(Sort(samples)) && multiset(Sort(samples)) == multiset(samples)
  {
    if samples != [] {
      var t := samples[..|samples|-1];
      assert samples == t + [samples[|t|]];
      SortSorts(t);
      InsertSorted(Sort(t), samples[|t|]);
    }
  }

  // Inserting at or above place k leaves the first k values alone; below, it pushes out
  // the last of them.
  lemma {:induction false} InsertTake(s: seq<real>, v: real, k: nat)
    requires Sorted(s) && 0 < k <= |s|
    ensures Insert(s, v)[..k] == if v < s[k-1] then Insert(s[..k-1], v) else s[..k]
    decreases |s|
  {
    var t := s[..|s|-1];
    if s[|s|-1] <= v {
      assert s[k-1] <= v;
      assert (s + [v])[..k] == s[..k];
    } else if k == |s| {
      assert Insert(s, v)[..k] == Insert(t, v);
    } else {
      InsertTake(t, v, k);
      assert Insert(s, v)[..k] == Insert(t, v)[..k];
      assert t[..k-1] == s[..k-1] && t[..k] == s[..k];
    }
  }

  // How add_sample changes the best k.
  lemma BestNext(samples: seq<real>, v: real, k: nat)
    requires k > 0
    ensures var b := Best(samples, k);
      Best(samples + [v], k) ==
        if |samples| < k then Insert(b, v) else if v < b[k-1] then Insert(b[..k-1], v) else b
  {
    var s := Sort(samples);
    assert (samples + [v])[..|samples|] == samples;
    SortSorts(samples);
    if |samples| < k {
      assert s[..|samples|] == s;
      assert Insert(s, v)[..|samples|+1] == Insert(s, v);
    } else {
      InsertTake(s, v, k);
      assert s[..k][..k-1] == s[..k-1];
    }
  }

  lemma BestShape(samples: seq<real>, k: nat)
    ensures var b := Best(samples, k);
      |b| == Least(k, |samples|) && Sorted(b) && forall n | 0 <= n <= |b| :: Sorted(b[..n])
  {
    SortSorts(samples);
  }

  class Sampler {
    const kbest: nat
    const maxsamples: int
    const epsilon: real
    var values: array<real>
    var samplecount: nat
    ghost var samples: seq<real>

    ghost predicate Valid()
      reads this, values
    {
      && kbest > 0 && values.Length == kbest && samplecount == |samples|
      && values[..Least(kbest, samplecount)] == Best(samples, kbest)
    }

    // init_sampler
    constructor (kbest: nat, maxsamples: int, epsilon: real)
      requires kbest > 0
      ensures Valid() && samples == [] && fresh(values)
      ensures this.kbest == kbest && this.maxsamples == maxsamples && this.epsilon == epsilon
    {
      this.kbest, this.maxsamples, this.epsilon := kbest, maxsamples, epsilon;
      values := new real[kbest](_ => 0.0);
      samplecount, samples := 0, [];
    }

    // The insertion sort of add_sample: the value at last moves down to its place.
    method SiftDown(last: nat)
      requires last < values.Length && Sorted(values[..last])
      modifies values
      ensures values[..last+1] == Insert(old(values[..last]), old(values[last]))
      ensures values[last+1..] == old(values[last+1..])
    {
      hide Insert, Sorted;
      ghost var s := values[..last];
      ghost var v := values[last];
      var pos := last;
      assert s[..last] == s;
      while pos > 0 && values[pos-1] > values[pos]
        invariant pos <= last && values[pos] == v
        invariant values[..pos] == s[..pos] && values[pos+1..last+1] == s[pos..]
        invariant values[last+1..] == old(values[last+1..])
        invariant Insert(s, v) == Insert(s[..pos], v) + s[pos..]
      {
        assert s[pos-1] == s[..pos][pos-1] == values[pos-1];
        InsertStep(s, v, pos);
        SwapParts(values[..], last, pos, s);
        values[pos-1], values[pos] := values[pos], values[pos-1];
        pos := pos - 1;
      }
      assert pos > 0 ==> s[..pos][pos-1] == values[pos-1];
      InsertHere(s, v, pos);
      assert values[..last+1] == values[..pos] + [values[pos]] + values[pos+1..last+1];
    }

    // add_sample
    method AddSample(val: real)
      requires Valid()
      modifies this`samplecount, this`samples, values
      ensures Valid() && samples == old(samples) + [val] && values == old(values)
    {
      hide Best, Insert, Sorted;
      BestNext(samples, val, kbest);
      BestShape(samples, kbest);
      BestShape(samples + [val], kbest);
      ghost var b := Best(samples, kbest);
      var pos := 0;
      if samplecount < kbest {
        pos := samplecount;
        values[pos] := val;
        assert values[..pos] == b == b[..pos];
        SiftDown(pos);
      } else if val < values[kbest-1] {
        assert b[kbest-1] == values[kbest-1];
        pos := kbest - 1;
        values[pos] := val;
        assert values[..pos] == b[..pos];
        SiftDown(pos);
      } else {
        assert b[kbest-1] == values[kbest-1];
      }
      samplecount := samplecount + 1;
      samples := samples + [val];
    }

    // has_converged
    method HasConverged() returns (r: bool)
      requires Valid()
      ensures r <==> Converged(samples, kbest, epsilon)
    {
      r := samplecount >= kbest && (1.0 + epsilon) * values[0] >= values[kbest-1];
      assert samplecount >= kbest ==> values[..kbest][0] == values[0] && values[..kbest][kbest-1] == values[kbest-1];
    }
  }

  // Swapping places pos - 1 and pos of the array.
  lemma SwapParts(values: seq<real>, last: nat, pos: nat, s: seq<real>)
    requires 0 < pos <= last < |values| && |s| == last
    requires values[..pos] == s[..pos] && values[pos+1..last+1] == s[pos..]
    ensures var w := values[pos-1 := values[pos]][pos := values[pos-1]];
      w[..pos-1] == s[..pos-1] && w[pos..last+1] == s[pos-1..] && w[last+1..] == values[last+1..]
  {
    var w := values[pos-1 := values[pos]][pos := values[pos-1]];
    assert w[pos..last+1] == [values[pos-1]] + values[pos+1..last+1];
    assert values[pos-1] == values[..pos][pos-1] == s[pos-1];
    assert w[..pos-1] == values[..pos][..pos-1];
  }

  lemma InsertHere(s: seq<real>, v: real, pos: nat)
    requires pos <= |s| && (pos > 0 ==> s[pos-1] <= v)
    ensures Insert(s[..pos], v) == s[..pos] + [v]
  {
  }

  lemma InsertStep(s: seq<real>, v: real, pos: nat)
    requires 0 < pos <= |s| && s[pos-1] > v
    requires Insert(s, v) == Insert(s[..pos], v) + s[pos..]
    ensures Insert(s, v) == Insert(s[..pos-1], v) + s[pos-1..]
  {
    assert s[..pos][..pos-1] == s[..pos-1];
    assert [s[pos-1]] + s[pos..] == s[pos-1..];
  }

  // The k smallest samples lie within epsilon of each other.
  predicate Converged(samples: seq<real>, k: nat, epsilon: real)
    requires k > 0
  {
    |samples| >= k && (1.0 + epsilon) * Sort(samples)[0] >= Sort(samples)[k-1]
  }

  // When the sampling loop of fcyc stops.
  predicate Enough(samples: seq<real>, k: nat, max: int, epsilon: real)
    requires k > 0
  {
    Converged(samples, k, epsilon) || |samples| >= max
  }

  function Measured(f: nat -> real, n: nat): (s: seq<real>)
    ensures |s| == n
  {
    seq(n, i requires 0 <= i < n => f(i))
  }

  lemma {:induction false} SmallestFirst(samples: seq<real>)
    requires samples != []
    ensures Sort(samples)[0] in samples && forall x <- samples :: Sort(samples)[0] <= x
  {
    SortSorts(samples);
    var s := Sort(samples);
    assert s[0] in multiset(s);
    forall x <- samples ensures s[0] <= x {
      assert x in multiset(samples);
      assert x in s;
    }
  }

  // How many samples are at most b.
  function AtMost(samples: seq<real>, b: real): nat
  {
    if samples == [] then 0
    else AtMost(samples[..|samples|-1], b) + if samples[|samples|-1] <= b then 1 else 0
  }

  lemma {:induction false} InsertCounts(s: seq<real>, v: real, b: real)
    ensures AtMost(Insert(s, v), b) == AtMost(s, b) + if v <= b then 1 else 0
  {
    var r := Insert(s, v);
    if s == [] || s[|s|-1] <= v {
      assert r[..|s|] == s;
    } else {
      InsertCounts(s[..|s|-1], v, b);
      assert r[..|s|] == Insert(s[..|s|-1], v);
    }
  }

  lemma {:induction false} SortCounts(samples: seq<real>, b: real)
    ensures AtMost(Sort(samples), b) == AtMost(samples, b)
  {
    if samples != [] {
      SortCounts(samples[..|samples|-1], b);
      InsertCounts(Sort(samples[..|samples|-1]), samples[|samples|-1], b);
    }
  }

  // In sorted values, k of them are at most b exactly if the one at place k is.
  lemma {:induction false} CountSorted(s: seq<real>, b: real, k: nat)
    requires Sorted(s) && k > 0
    ensures AtMost(s, b) >= k <==> k <= |s| && s[k-1] <= b
    ensures AtMost(s, b) <= |s|
  {
    if s != [] {
      var t := s[..|s|-1];
      CountSorted(t, b, k);
      if k == |s| && k > 1 { CountSorted(t, b, k - 1); }
    }
  }

  // What the test for convergence says of the samples, in whatever order they came: at
  // least k of them are within a factor 1 + epsilon of the smallest.
  lemma ConvergedMeans(samples: seq<real>, k: nat, epsilon: real, least: real)
    requires k > 0 && least in samples && forall x <- samples :: least <= x
    ensures Converged(samples, k, epsilon) <==> AtMost(samples, (1.0 + epsilon) * least) >= k
  {
    hide Sort, AtMost, Sorted;
    var s, b := Sort(samples), (1.0 + epsilon) * least;
    assert s[0] == least by { SmallestFirst(samples); }
    assert Sorted(s) by { SortSorts(samples); }
    SortCounts(samples, b);
    CountSorted(s, b, k);
  }

  // fcyc, with the successive measurements given: it stops at the first count of samples
  // that is enough, and returns the smallest of them.
  method Fcyc(f: nat -> real, kbest: nat, maxsamples: int, epsilon: real) returns (result: real, n: nat)
    requires kbest > 0
    ensures n > 0 && Enough(Measured(f, n), kbest, maxsamples, epsilon)
    ensures forall m | 0 < m < n :: !Enough(Measured(f, m), kbest, maxsamples, epsilon)
    ensures (exists i | 0 <= i < n :: result == f(i)) && forall i | 0 <= i < n :: result <= f(i)
  {
    hide Converged;
    var sampler := new Sampler(kbest, maxsamples, epsilon);
    n := 0;
    var done := false;
    while !done
      invariant sampler.Valid() && fresh(sampler) && fresh(sampler.values)
      invariant sampler.kbest == kbest && sampler.maxsamples == maxsamples && sampler.epsilon == epsilon
      invariant sampler.samples == Measured(f, n)
      invariant forall m | 0 < m < n + (if done then 0 else 1) :: !Enough(Measured(f, m), kbest, maxsamples, epsilon)
      invariant done ==> n > 0 && Enough(Measured(f, n), kbest, maxsamples, epsilon)
      decreases !done, maxsamples - n
    {
      sampler.AddSample(f(n));
      assert Measured(f, n + 1) == Measured(f, n) + [f(n)];
      n := n + 1;
      var converged := sampler.HasConverged();
      done := converged || sampler.samplecount >= maxsamples;
    }
    result := sampler.values[0];
    SmallestFirst(sampler.samples);
    assert result == Best(sampler.samples, kbest)[0] == Sort(sampler.samples)[0];
    ghost var xs := sampler.samples;
    assert forall i | 0 <= i < n :: xs[i] == f(i) && xs[i] in xs;
    ghost var k :| 0 <= k < n && xs[k] == result;
    assert result == f(k);
  }
}
