// Which expression the text of gen_expr spells: concat hangs the elements of a set and
// the arms of a case list into one chain of nodes, and both loops of gen_expr run on to
// the end of the chain.
module HclWalk {
  import opened Common
  import opened Hcl
  import opened HclCorrect

  function SizeOf(e: Expr): nat
  {
    match e
      case Var(_) => 1
      case Num(_) => 1
      case Not(a) => 1 + SizeOf(a)
      case And(a, b) => 1 + SizeOf(a) + SizeOf(b)
      case Or(a, b) => 1 + SizeOf(a) + SizeOf(b)
      case Comp(_, a, b) => 1 + SizeOf(a) + SizeOf(b)
      case In(a, es) => 1 + SizeOf(a) + SetSize(es)
      case Case(arms) => 1 + ArmsSize(arms)
  }

  function SetSize(es: Exprs): nat { if es.NoExprs? then 0 else 1 + SizeOf(es.head) + SetSize(es.tail) }

  function ArmsSize(arms: Arms): nat
  {
    if arms.NoArms? then 0 else 1 + SizeOf(arms.cond) + SizeOf(arms.value) + ArmsSize(arms.rest)
  }

  lemma HeadSize(es: Exprs)
    requires es.Exprs?
    ensures SetSize(es) == 1 + SizeOf(es.head) + SetSize(es.tail)
    ensures es.head.Case? ==> SizeOf(es.head) == 1 + ArmsSize(es.head.arms)
    ensures es.head.And? ==> SizeOf(es.head) == 1 + SizeOf(es.head.a) + SizeOf(es.head.b)
    ensures es.head.Or? ==> SizeOf(es.head) == 1 + SizeOf(es.head.a) + SizeOf(es.head.b)
    ensures es.head.Comp? ==> SizeOf(es.head) == 1 + SizeOf(es.head.a) + SizeOf(es.head.b)
    ensures es.head.In? ==> SizeOf(es.head) == 1 + SizeOf(es.head.a) + SetSize(es.head.elements)
  {
  }

  // ------------------------------------------------------------ the printed expression

  function Pair(f: (Expr, Expr) -> Expr, a: Option<Expr>, b: Option<Expr>): Option<Expr>
  {
    if a.None? || b.None? then None else Some(f(a.value, b.value))
  }

  // The expression whose text gen_expr prints for e; None if it fails.
  function Walked(e: Expr): Option<Expr>
    decreases SizeOf(e), 2
  {
    match e
      case Var(_) => Some(e)
      case Num(_) => Some(e)
      case Not(a) => var x := Walked(a); if x.None? then None else Some(Not(x.value))
      case And(a, b) => Pair((x, y) => And(x, y), Walked(a), Walked(b))
      case Or(a, b) => Pair((x, y) => Or(x, y), Walked(a), Walked(b))
      case Comp(op, a, b) => Pair((x, y) => Comp(op, x, y), Walked(a), Walked(b))
      case In(a, es) =>
        var x, s := Walked(a), WalkedSet(NoArms, es);
        if s.None? || (x.None? && s.value.Exprs?) then None
        else Some(In(if s.value.Exprs? then x.value else Num("0"), s.value))
      case Case(arms) =>
        var r := Run(arms, NoExprs);
        if arms.NoArms? || r.None? then None else Some(Case(r.value))
  }

  // An arm in front of the rest of a run.  Nothing after a condition that is a literal 1
  // is printed.
  function Arm(cond: Expr, c: Option<Expr>, v: Option<Expr>, unread: Arms, rest: Option<Arms>): Option<Arms>
  {
    if v.None? then None
    else if IsOne(cond) then Some(Arms(cond, v.value, unread))
    else if c.None? || rest.None? then None
    else Some(Arms(c.value, v.value, rest.value))
  }

  // The arms printed from one node of the chain on: those of its own case list, and then
  // every later element of the set, as far as it has two arguments.
  function Run(arms: Arms, es: Exprs): Option<Arms>
    decreases ArmsSize(arms) + SetSize(es), 0
  {
    if arms.Arms? then Arm(arms.cond, Walked(arms.cond), Walked(arms.value), arms.rest, Run(arms.rest, es))
    else if es.NoExprs? then Some(NoArms)
    else
      HeadSize(es);
      match es.head
        case Case(more) => Run(more, es.tail)
        case And(a, b) => Arm(a, Walked(a), Walked(b), NoArms, Run(NoArms, es.tail))
        case Or(a, b) => Arm(a, Walked(a), Walked(b), NoArms, Run(NoArms, es.tail))
        case Comp(_, a, b) => Arm(a, Walked(a), Walked(b), NoArms, Run(NoArms, es.tail))
        case In(a, els) => Arm(a, Walked(a), WalkedFirst(els), NoArms, Run(NoArms, es.tail))
        case _ => None
  }

  function CaseOf(r: Option<Arms>): Option<Expr> { if r.None? then None else Some(Case(r.value)) }

  // The first element of a set, as it is printed.
  function WalkedFirst(es: Exprs): Option<Expr>
    decreases SetSize(es), 1
  {
    if es.NoExprs? then None
    else if !es.head.Case? then Walked(es.head)
    else if es.head.arms.NoArms? then WalkedFirst(es.tail)
    else HeadSize(es); CaseOf(Run(es.head.arms, es.tail))
  }

  function Prepend(x: Option<Expr>, s: Option<Exprs>): Option<Exprs>
  {
    if x.None? || s.None? then None else Some(Exprs(x.value, s.value))
  }

  // The elements printed from one node of the chain on: every arm of a case list is one.
  function WalkedSet(arms: Arms, es: Exprs): Option<Exprs>
    decreases ArmsSize(arms) + SetSize(es), 1
  {
    if arms.Arms? then Prepend(CaseOf(Run(arms, es)), WalkedSet(arms.rest, es))
    else if es.NoExprs? then Some(NoExprs)
    else if es.head.Case? then HeadSize(es); WalkedSet(es.head.arms, es.tail)
    else Prepend(Walked(es.head), WalkedSet(NoArms, es.tail))
  }

  // ------------------------------------------------------------------ it is the text

  function TextOf(w: Option<Expr>, tab: seq<Signal>): Option<seq<Tok>>
  {
    if w.None? then None else Text(w.value, tab)
  }

  function RunText(r: Option<Arms>, tab: seq<Signal>): Option<seq<Tok>>
  {
    if r.None? then None else ArmsText(r.value, tab)
  }

  // The nodes of the remaining arms of a case list and of the elements after it.
  function Chain(arms: Arms, es: Exprs, tab: seq<Signal>): Node
  {
    Concat(ArmsChain(arms, tab), SetChain(es, tab))
  }

  lemma ChainShape(arms: Arms, es: Exprs, tab: seq<Signal>)
    ensures arms.Arms? ==>
      Chain(arms, es, tab) == Node(NCase, false, ":", Build(arms.cond, tab).node, Build(arms.value, tab).node,
        Chain(arms.rest, es, tab))
    ensures arms.NoArms? && es.NoExprs? ==> Chain(arms, es, tab) == Null
    ensures arms.NoArms? && es.Exprs? && es.head.Case? ==> Chain(arms, es, tab) == Chain(es.head.arms, es.tail, tab)
    ensures arms.NoArms? && es.Exprs? && !es.head.Case? ==>
      Build(es.head, tab).node.Node? &&
        Chain(arms, es, tab) == Build(es.head, tab).node.(next := Chain(NoArms, es.tail, tab))
  {
    if arms.NoArms? && es.Exprs? { NodeShape(es.head, tab); }
  }

  // What the loop over arms makes of an element that is no case list.
  function ElementArm(e: Expr, next: Node, tab: seq<Signal>): Option<seq<Tok>>
  {
    match e
      case And(a, b) => GenArm(Build(a, tab).node, Build(b, tab).node, next, tab)
      case Or(a, b) => GenArm(Build(a, tab).node, Build(b, tab).node, next, tab)
      case Comp(_, a, b) => GenArm(Build(a, tab).node, Build(b, tab).node, next, tab)
      case In(a, es) => GenArm(Build(a, tab).node, Chain(NoArms, es, tab), next, tab)
      case _ => None
  }

  lemma ElementNode(e: Expr, next: Node, tab: seq<Signal>)
    requires !e.Case?
    ensures Build(e, tab).node.Node? && GenArms(Build(e, tab).node.(next := next), tab) == ElementArm(e, next, tab)
    ensures Gen(Build(e, tab).node.(next := next), tab) == Gen(Build(e, tab).node, tab)
  {
    NodeShape(e, tab);
    if e.In? { SetIsChain(Built(Null, true), e.elements, tab); }
    if e.Not? {
      var n := Build(e, tab).node.(next := next);
      assert Gen(n.arg2, tab) == None;
      Joined5(Gen(n.arg1, tab), Just(Quest), Gen(n.arg2, tab), Just(Colon), GenArms(n.next, tab));
    }
  }

  function GenArm(cond: Node, value: Node, next: Node, tab: seq<Signal>): Option<seq<Tok>>
  {
    if cond.Null? then None
    else if cond.kind == NNum && Decimal(cond.sval) == 1 then Gen(value, tab)
    else Join([Gen(cond, tab), Just(Quest), Gen(value, tab), Just(Colon), GenArms(next, tab)])
  }

  // Walking neither makes nor removes a numeral.
  lemma KindKept(e: Expr)
    ensures Walked(e).Some? ==> (Walked(e).value.Num? <==> e.Num?) && (e.Num? ==> Walked(e).value == e)
    ensures Walked(e).Some? ==> (Walked(e).value.Case? <==> e.Case?) && (e.Case? ==> Walked(e).value.arms.Arms?)
    ensures Walked(e).Some? ==> (Walked(e).value.Var? <==> e.Var?) && (e.Var? ==> Walked(e).value == e)
    ensures e.Case? && e.arms.NoArms? ==> Walked(e).None?
  {
    if e.Case? && e.arms.Arms? { assert e.arms.Arms?; }
  }

  // One arm: its condition and its value print as their walks do.
  lemma ArmText(cond: Expr, v: Option<Expr>, value: Node, unread: Arms, rest: Option<Arms>, next: Node,
          tab: seq<Signal>)
    requires Gen(Build(cond, tab).node, tab) == TextOf(Walked(cond), tab)
    requires Gen(value, tab) == TextOf(v, tab) && GenArms(next, tab) == RunText(rest, tab)
    ensures GenArm(Build(cond, tab).node, value, next, tab) == RunText(Arm(cond, Walked(cond), v, unread, rest), tab)
  {
    hide Gen, Build, Walked, Text, Decimal;
    NodeShape(cond, tab);
    KindKept(cond);
    var n := Build(cond, tab).node;
    Joined5(Gen(n, tab), Just(Quest), Gen(value, tab), Just(Colon), GenArms(next, tab));
    NullText(tab);
  }

  lemma NullText(tab: seq<Signal>)
    ensures Gen(Null, tab) == None
  {
  }

  // For every expression, gen_expr prints the text of its walk, and fails where that
  // fails.
  lemma {:induction false} GenIsWalked(e: Expr, tab: seq<Signal>)
    ensures Gen(Build(e, tab).node, tab) == TextOf(Walked(e), tab)
    decreases SizeOf(e), 2
  {
    match e
      case Var(_) =>
      case Num(_) =>
      case Not(a) =>
        GenIsWalked(a, tab);
        Joined2(Just(Bang), Gen(Build(a, tab).node, tab));
      case And(a, b) => PairIsWalked(e, a, b, Amp, tab);
      case Or(a, b) => PairIsWalked(e, a, b, Bar, tab);
      case Comp(op, a, b) => PairIsWalked(e, a, b, Op(op), tab);
      case In(a, es) =>
        GenIsWalked(a, tab);
        SetIsChain(Built(Null, true), es, tab);
        SetIsWalked(TextOf(Walked(a), tab), NoArms, es, tab);
        InIsWalked(a, es, tab);
      case Case(arms) =>
        NodeShape(e, tab);
        if arms.Arms? {
          RunIsWalked(arms, NoExprs, tab);
          ConcatAssoc(ArmsChain(arms, tab), Null, Null);
          CaseIsWalked(arms, NoExprs, tab);
        }
  }

  lemma {:induction false} PairIsWalked(e: Expr, a: Expr, b: Expr, t: Tok, tab: seq<Signal>)
    requires (e == And(a, b) && t == Amp) || (e == Or(a, b) && t == Bar) ||
      (e.Comp? && e == Comp(e.op, a, b) && t == Op(e.op))
    ensures Gen(Build(e, tab).node, tab) == TextOf(Walked(e), tab)
    decreases SizeOf(e), 1
  {
    GenIsWalked(a, tab);
    GenIsWalked(b, tab);
    Joined5(Just(LP), Gen(Build(a, tab).node, tab), Just(t), Gen(Build(b, tab).node, tab), Just(RP));
  }

  lemma InIsWalked(a: Expr, es: Exprs, tab: seq<Signal>)
    requires Gen(Build(a, tab).node, tab) == TextOf(Walked(a), tab)
    requires BuildSet(Built(Null, true), es, tab).node == Chain(NoArms, es, tab)
    requires var s := WalkedSet(NoArms, es); var x := TextOf(Walked(a), tab);
      GenSet(x, Chain(NoArms, es, tab), tab) == if s.None? then None else SetText(x, s.value, tab)
    requires var s := WalkedSet(NoArms, es); s.Some? ==> (s.value.Exprs? <==> Chain(NoArms, es, tab).Node?)
    ensures Gen(Build(In(a, es), tab).node, tab) == TextOf(Walked(In(a, es)), tab)
  {
    var x := TextOf(Walked(a), tab);
    Joined3(Just(LP), GenSet(x, Chain(NoArms, es, tab), tab), Just(RP));
    var s := WalkedSet(NoArms, es);
    if s.Some? && s.value.Exprs? && Walked(a).None? {
      var n := s.value;
      Joined5(x, Just(Op("==")), Text(n.head, tab),
           if n.tail.Exprs? then Just(OrOr) else Some([]), SetText(x, n.tail, tab));
    }
  }

  lemma CaseIsWalked(arms: Arms, es: Exprs, tab: seq<Signal>)
    requires GenArms(Chain(arms, es, tab), tab) == RunText(Run(arms, es), tab) && arms.Arms?
    ensures Gen(Chain(arms, es, tab), tab) == TextOf(CaseOf(Run(arms, es)), tab)
  {
    hide GenArms, ArmsText, Walked;
    ChainShape(arms, es, tab);
    Joined3(Just(LP), GenArms(Chain(arms, es, tab), tab), Just(RP));
  }

  lemma {:induction false} RunIsWalked(arms: Arms, es: Exprs, tab: seq<Signal>)
    ensures GenArms(Chain(arms, es, tab), tab) == RunText(Run(arms, es), tab)
    decreases ArmsSize(arms) + SetSize(es), 0
  {
    hide Gen, Build, Walked, Text, Chain;
    if es.Exprs? { HeadSize(es); }
    ChainShape(arms, es, tab);
    if arms.Arms? {
      GenIsWalked(arms.cond, tab);
      GenIsWalked(arms.value, tab);
      RunIsWalked(arms.rest, es, tab);
      ArmText(arms.cond, Walked(arms.value), Build(arms.value, tab).node, arms.rest, Run(arms.rest, es),
        Chain(arms.rest, es, tab), tab);
    } else if es.Exprs? {
      var next := Chain(NoArms, es.tail, tab);
      if es.head.Case? {
        RunIsWalked(es.head.arms, es.tail, tab);
      } else {
        ElementNode(es.head, next, tab);
        RunIsWalked(NoArms, es.tail, tab);
        match es.head {
          case And(a, b) => ArgumentsWalked(a, b, es.tail, tab);
          case Or(a, b) => ArgumentsWalked(a, b, es.tail, tab);
          case Comp(_, a, b) => ArgumentsWalked(a, b, es.tail, tab);
          case In(a, els) =>
            GenIsWalked(a, tab);
            FirstIsWalked(els, tab);
            ArmText(a, WalkedFirst(els), Chain(NoArms, els, tab), NoArms, Run(NoArms, es.tail), next, tab);
          case _ =>
        }
      }
    }
  }

  lemma {:induction false} ArgumentsWalked(a: Expr, b: Expr, es: Exprs, tab: seq<Signal>)
    requires GenArms(Chain(NoArms, es, tab), tab) == RunText(Run(NoArms, es), tab)
    ensures GenArm(Build(a, tab).node, Build(b, tab).node, Chain(NoArms, es, tab), tab) ==
      RunText(Arm(a, Walked(a), Walked(b), NoArms, Run(NoArms, es)), tab)
    decreases SizeOf(a) + SizeOf(b), 3
  {
    hide Gen, Build, Walked, Text, Chain;
    GenIsWalked(a, tab);
    GenIsWalked(b, tab);
    ArmText(a, Walked(b), Build(b, tab).node, NoArms, Run(NoArms, es), Chain(NoArms, es, tab), tab);
  }

  lemma {:induction false} FirstIsWalked(es: Exprs, tab: seq<Signal>)
    ensures Gen(Chain(NoArms, es, tab), tab) == TextOf(WalkedFirst(es), tab)
    decreases SetSize(es), 1
  {
    hide Gen, Build, Walked, Text, Chain;
    if es.Exprs? { HeadSize(es); }
    ChainShape(NoArms, es, tab);
    if es.NoExprs? {
      NullText(tab);
    } else if !es.head.Case? {
      GenIsWalked(es.head, tab);
      ElementNode(es.head, Chain(NoArms, es.tail, tab), tab);
    } else if es.head.arms.NoArms? {
      ChainShape(es.head.arms, es.tail, tab);
      FirstIsWalked(es.tail, tab);
    } else {
      RunIsWalked(es.head.arms, es.tail, tab);
      CaseIsWalked(es.head.arms, es.tail, tab);
    }
  }

  // The loop of N_ELE over a chain.
  lemma {:induction false} SetIsWalked(x: Option<seq<Tok>>, arms: Arms, es: Exprs, tab: seq<Signal>)
    ensures var s := WalkedSet(arms, es);
      && GenSet(x, Chain(arms, es, tab), tab) == (if s.None? then None else SetText(x, s.value, tab))
      && (s.Some? ==> (s.value.Exprs? <==> Chain(arms, es, tab).Node?))
    decreases ArmsSize(arms) + SetSize(es), 1
  {
    hide Gen, Build, Walked, Text, Chain, Run;
    if es.Exprs? { HeadSize(es); }
    ChainShape(arms, es, tab);
    if arms.Arms? {
      RunIsWalked(arms, es, tab);
      CaseIsWalked(arms, es, tab);
      SetIsWalked(x, arms.rest, es, tab);
      NodeOfSet(x, Chain(arms, es, tab), CaseOf(Run(arms, es)), WalkedSet(arms.rest, es), tab);
    } else if es.Exprs? {
      if es.head.Case? {
        SetIsWalked(x, es.head.arms, es.tail, tab);
      } else {
        GenIsWalked(es.head, tab);
        ElementNode(es.head, Chain(NoArms, es.tail, tab), tab);
        SetIsWalked(x, NoArms, es.tail, tab);
        NodeOfSet(x, Chain(arms, es, tab), Walked(es.head), WalkedSet(NoArms, es.tail), tab);
      }
    }
  }

  lemma NodeOfSet(x: Option<seq<Tok>>, n: Node, w: Option<Expr>, s: Option<Exprs>, tab: seq<Signal>)
    requires n.Node? && Gen(n, tab) == TextOf(w, tab)
    requires GenSet(x, n.next, tab) == if s.None? then None else SetText(x, s.value, tab)
    requires s.Some? ==> (s.value.Exprs? <==> n.next.Node?)
    ensures GenSet(x, n, tab) == if Prepend(w, s).None? then None else SetText(x, Prepend(w, s).value, tab)
  {
    hide Gen, Text;
    var o := if n.next.Node? then Just(OrOr) else Some([]);
    Joined5(x, Just(Op("==")), Gen(n, tab), o, GenSet(x, n.next, tab));
  }
}
