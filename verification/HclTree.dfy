// concat and gen_expr as they run: nodes linked through their next fields, and text
// appended to the output.
module HclTree {
  import opened Common
  import opened Hcl
  import opened HclCorrect

  // A node_rec in memory.  concat touches only next, so the other fields are one value,
  // whose own next field is not used.
  class NodeRec {
    const item: Node
    var next: NodeRec?

    constructor (item: Node)
      ensures this.item == item && next == null
    {
      this.item, next := item, null;
    }
  }

  // The list that starts at n consists of the nodes c, each once.
  ghost predicate Chain(n: NodeRec?, c: seq<NodeRec>)
    reads c
  {
    && (if c == [] then n == null else n == c[0] && c[|c|-1].next == null)
    && (forall i | 0 <= i < |c| - 1 :: c[i].next == c[i+1])
    && (forall i, j | 0 <= i < j < |c| :: c[i] != c[j])
  }

  // The tree those nodes stand for.
  ghost function Linked(c: seq<NodeRec>): Node
  {
    if c == [] then Null
    else if c[0].item.Null? then Null
    else c[0].item.(next := Linked(c[1..]))
  }

  lemma {:induction false} LinkedAppend(c: seq<NodeRec>, d: seq<NodeRec>)
    requires forall x <- c :: x.item.Node?
    ensures Linked(c + d) == Hcl.Concat(Linked(c), Linked(d))
  {
    if c == [] {
      assert c + d == d;
    } else {
      assert (c + d)[1..] == c[1..] + d;
      LinkedAppend(c[1..], d);
    }
  }

  // concat: the second list is hung on the last node of the first.
  method ConcatLists(n1: NodeRec?, n2: NodeRec?, ghost c1: seq<NodeRec>, ghost c2: seq<NodeRec>) returns (r: NodeRec?)
    requires Chain(n1, c1) && Chain(n2, c2) && forall x <- c1 :: x !in c2
    requires forall x <- c1 :: x.item.Node?
    modifies c1
    ensures Chain(r, c1 + c2) && Linked(c1 + c2) == Hcl.Concat(Linked(c1), Linked(c2))
    ensures forall i | 0 <= i < |c1| - 1 :: c1[i].next == old(c1[i].next)
  {
    LinkedAppend(c1, c2);
    if n1 == null {
      assert c1 == [] && c1 + c2 == c2;
      return n2;
    }
    var tail := n1;
    ghost var i := 0;
    while tail.next != null
      invariant 0 <= i < |c1| && tail == c1[i]
      invariant unchanged(c1)
      invariant tail.next == if i + 1 < |c1| then c1[i+1] else null
      decreases |c1| - i
    {
      tail := tail.next;
      i := i + 1;
    }
    assert i == |c1| - 1;
    assert tail in c1;
    assert forall x <- c2 :: x != tail;
    tail.next := n2;
    r := n1;
    ChainJoined(n1, n2, c1, c2);
  }

  lemma ChainJoined(n1: NodeRec?, n2: NodeRec?, c1: seq<NodeRec>, c2: seq<NodeRec>)
    requires c1 != [] && n1 == c1[0] && c1[|c1|-1].next == n2 && Chain(n2, c2)
    requires forall i | 0 <= i < |c1| - 1 :: c1[i].next == c1[i+1]
    requires forall i, j | 0 <= i < j < |c1| :: c1[i] != c1[j]
    requires forall x <- c1 :: x !in c2
    ensures Chain(n1, c1 + c2)
  {
    var c := c1 + c2;
    forall k | 0 <= k < |c| - 1 ensures c[k].next == c[k+1] {
      if k >= |c1| { assert c[k] == c2[k-|c1|]; }
    }
    forall k, l | 0 <= k < l < |c| ensures c[k] != c[l] {
      assert k < |c1| ==> c[k] in c1;
      assert l >= |c1| ==> c[l] in c2;
      if k >= |c1| { assert c[k] == c2[k-|c1|] && c[l] == c2[l-|c1|]; }
    }
    assert c2 != [] ==> c[|c|-1] == c2[|c2|-1];
  }

  // ------------------------------------------------------------------------ output

  // Text added to what is there, if there is any.
  ghost function After(out: seq<Tok>, more: Option<seq<Tok>>): Option<seq<Tok>>
  {
    if more.None? then None else Some(out + more.value)
  }

  lemma Unfold2(out: seq<Tok>, x: Option<seq<Tok>>, y: Option<seq<Tok>>)
    ensures After(out, Join([x, y])) == if x.None? || y.None? then None else Some(out + x.value + y.value)
  {
    Joined2(x, y);
    if x.Some? && y.Some? { assert out + (x.value + y.value) == out + x.value + y.value; }
  }

  lemma Unfold3(out: seq<Tok>, x: Option<seq<Tok>>, y: Option<seq<Tok>>, z: Option<seq<Tok>>)
    ensures After(out, Join([x, y, z])) ==
      if x.None? || y.None? || z.None? then None else Some(out + x.value + y.value + z.value)
  {
    Joined3(x, y, z);
    if x.Some? && y.Some? && z.Some? {
      assert out + (x.value + (y.value + z.value)) == out + x.value + y.value + z.value;
    }
  }

  lemma Unfold5(out: seq<Tok>, x: Option<seq<Tok>>, y: Option<seq<Tok>>, z: Option<seq<Tok>>, u: Option<seq<Tok>>,
          v: Option<seq<Tok>>)
    ensures After(out, Join([x, y, z, u, v])) ==
      if x.None? || y.None? || z.None? || u.None? || v.None? then None
      else Some(out + x.value + y.value + z.value + u.value + v.value)
    ensures x.Some? && y.Some? && z.Some? && u.Some? ==>
      After(out, Join([x, y, z, u, v])) == After(out + x.value + y.value + z.value + u.value, v)
  {
    Joined5(x, y, z, u, v);
    if x.Some? && y.Some? && z.Some? && u.Some? && v.Some? {
      assert out + (x.value + (y.value + (z.value + (u.value + v.value)))) ==
             out + x.value + y.value + z.value + u.value + v.value;
    }
  }

  class Generator {
    const symTab: seq<Signal>
    var out: seq<Tok>

    constructor (tab: seq<Signal>)
      ensures symTab == tab && out == []
    {
      symTab, out := tab, [];
    }

    method Print(t: Tok)
      modifies this
      ensures out == old(out) + [t]
    {
      out := out + [t];
    }
  
    // gen_expr.  It fails where the program reports an error or follows a null pointer;
    // what was printed by then is of no interest.
    method GenExpr(n: Node) returns (ok: bool)
      modifies this
      ensures ok <==> Gen(n, symTab).Some?
      ensures ok ==> out == old(out) + Gen(n, symTab).value
      decreases n, 1
    {
      if n.Null? { return false; }
      match n.kind {
        case NVar =>
          var s := FindSymbol(symTab, n.sval);
          if s.None? { return false; }
          Print(LP);
          Print(Quote(s.value.quote));
          Print(RP);
          ok := true;
        case NNum =>
          Print(Lit(n.sval));
          ok := true;
        case NNot =>
          Unfold2(out, Just(Bang), Gen(n.arg1, symTab));
          Print(Bang);
          ok := GenExpr(n.arg1);
        case NAnd => ok := Infix(n, Amp);
        case NOr => ok := Infix(n, Bar);
        case NComp => ok := Infix(n, Op(n.sval));
        case NEle =>
          Unfold3(out, Just(LP), GenSet(Gen(n.arg1, symTab), n.arg2, symTab), Just(RP));
          Print(LP);
          ok := Elements(n);
          if ok { Print(RP); }
        case NCase =>
          Unfold3(out, Just(LP), GenArms(n, symTab), Just(RP));
          Print(LP);
          ok := CaseArms(n);
          if ok { Print(RP); }
      }
    }

    method Infix(n: Node, t: Tok) returns (ok: bool)
      requires n.Node?
      modifies this
      ensures var x := Join([Just(LP), Gen(n.arg1, symTab), Just(t), Gen(n.arg2, symTab), Just(RP)]);
        (ok <==> x.Some?) && (ok ==> out == old(out) + x.value)
      decreases n, 0
    {
      Unfold5(out, Just(LP), Gen(n.arg1, symTab), Just(t), Gen(n.arg2, symTab), Just(RP));
      Print(LP);
      ok := GenExpr(n.arg1);
      if !ok { return; }
      Print(t);
      ok := GenExpr(n.arg2);
      if !ok { return; }
      Print(RP);
    }

    // The loop of N_ELE over the chain of elements.
    method Elements(n: Node) returns (ok: bool)
      requires n.Node?
      modifies this
      ensures var x := GenSet(Gen(n.arg1, symTab), n.arg2, symTab);
        (ok <==> x.Some?) && (ok ==> out == old(out) + x.value)
      decreases n, 0
    {
      ghost var a := Gen(n.arg1, symTab);
      ghost var goal := After(out, GenSet(a, n.arg2, symTab));
      var ele := n.arg2;
      while ele.Node?
        invariant ele < n
        invariant After(out, GenSet(a, ele, symTab)) == goal
        decreases ele
      {
        Unfold5(out, a, Just(Op("==")), Gen(ele, symTab), if ele.next.Node? then Just(OrOr) else Some([]),
                GenSet(a, ele.next, symTab));
        ok := GenExpr(n.arg1);
        if !ok { return; }
        Print(Op("=="));
        ok := GenExpr(ele);
        if !ok { return; }
        assert out + [] == out;
        if ele.next.Node? { Print(OrOr); }
        ele := ele.next;
      }
      ok := true;
    }

    // The loop of N_CASE over the chain of arms.
    method CaseArms(n: Node) returns (ok: bool)
      requires n.Node?
      modifies this
      ensures var x := GenArms(n, symTab);
        (ok <==> x.Some?) && (ok ==> out == old(out) + x.value)
      decreases n, 0
    {
      ghost var goal := After(out, GenArms(n, symTab));
      var ele := n;
      var done := false;
      while ele.Node? && !done
        invariant ele == n || ele < n
        invariant if done then goal == Some(out) else After(out, GenArms(ele, symTab)) == goal
        decreases !done, ele
      {
        if ele.arg1.Null? { return false; }
        if ele.arg1.kind == NNum && Decimal(ele.arg1.sval) == 1 {
          ok := GenExpr(ele.arg2);
          if !ok { return; }
          done := true;
        } else {
          Unfold5(out, Gen(ele.arg1, symTab), Just(Quest), Gen(ele.arg2, symTab), Just(Colon),
            GenArms(ele.next, symTab));
          ok := GenExpr(ele.arg1);
          if !ok { return; }
          Print(Quest);
          ok := GenExpr(ele.arg2);
          if !ok { return; }
          Print(Colon);
          ele := ele.next;
        }
      }
      if !done { Print(Lit("0")); }
      ok := true;
    }
  }
}
