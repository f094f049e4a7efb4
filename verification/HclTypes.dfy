// The type rules behind check_arg and the make functions of node.c, and which
// expressions hcl2c accepts.
module HclTypes {
  import opened Common
  import opened Hcl
  import opened HclCorrect
  import opened HclWalk

  // Every operand inside e fits its place; the elements of a set may be of either type.
  predicate Typed(e: Expr, tab: seq<Signal>)
  {
    match e
      case Var(_) => true
      case Num(_) => true
      case Not(a) => Typed(a, tab) && Fits(a, true, tab)
      case And(a, b) => Typed(a, tab) && Typed(b, tab) && Fits(a, true, tab) && Fits(b, true, tab)
      case Or(a, b) => Typed(a, tab) && Typed(b, tab) && Fits(a, true, tab) && Fits(b, true, tab)
      case Comp(_, a, b) => Typed(a, tab) && Typed(b, tab) && Fits(a, false, tab) && Fits(b, false, tab)
      case In(a, es) => Typed(a, tab) && Fits(a, false, tab) && AllTyped(es, tab)
      case Case(arms) => TypedArms(arms, tab)
  }

  predicate AllTyped(es: Exprs, tab: seq<Signal>) { es.Exprs? ==> Typed(es.head, tab) && AllTyped(es.tail, tab) }

  predicate TypedArms(arms: Arms, tab: seq<Signal>)
  {
    arms.Arms? ==>
      && Typed(arms.cond, tab) && Typed(arms.value, tab)
      && Fits(arms.cond, true, tab) && Fits(arms.value, false, tab)
      && TypedArms(arms.rest, tab)
  }

  // The numerals 0 and 1 fit both types; everything else fits one, but for an undeclared
  // signal and an empty case list, which fit none.
  lemma OneType(e: Expr, tab: seq<Signal>)
    ensures Fits(e, true, tab) && Fits(e, false, tab) <==> e.Num? && (e.text == "0" || e.text == "1")
    ensures !Fits(e, true, tab) && !Fits(e, false, tab) <==>
      (e.Var? && FindSymbol(tab, e.name).None?) || (e.Case? && e.arms.NoArms?)
  {
    hide FindSymbol;
  }

  // No error in a set or a case list means none in its parts.
  predicate AllBuilt(es: Exprs, tab: seq<Signal>) { es.Exprs? ==> Build(es.head, tab).ok && AllBuilt(es.tail, tab) }

  lemma {:induction false} SetBuilt(acc: Built, es: Exprs, tab: seq<Signal>)
    ensures BuildSet(acc, es, tab).ok <==> acc.ok && AllBuilt(es, tab)
    decreases es
  {
    if es.Exprs? {
      var x := Build(es.head, tab);
      SetBuilt(Built(Concat(acc.node, x.node), acc.ok && x.ok), es.tail, tab);
    }
  }

  predicate ArmsTyped(arms: Arms, tab: seq<Signal>)
  {
    arms.Arms? ==>
      && Build(arms.cond, tab).ok && Build(arms.value, tab).ok
      && CheckArg(Build(arms.cond, tab).node, true, tab) && CheckArg(Build(arms.value, tab).node, false, tab)
      && ArmsTyped(arms.rest, tab)
  }

  lemma {:induction false} ArmsBuilt(acc: Built, arms: Arms, tab: seq<Signal>)
    ensures BuildArms(acc, arms, tab).ok <==> acc.ok && ArmsTyped(arms, tab)
    decreases arms
  {
    if arms.Arms? {
      var c, v := Build(arms.cond, tab), Build(arms.value, tab);
      var n := Node(NCase, false, ":", c.node, v.node, Null);
      ArmsBuilt(Built(Concat(acc.node, n),
                      acc.ok && c.ok && v.ok && CheckArg(c.node, true, tab) &&
                        CheckArg(v.node, false, tab)), arms.rest, tab);
    }
  }

  // check_arg on the tree of an expression checks that the expression fits.
  lemma CheckArgIsFits(e: Expr, wantbool: bool, tab: seq<Signal>)
    ensures CheckArg(Build(e, tab).node, wantbool, tab) == Fits(e, wantbool, tab)
  {
    NodeShape(e, tab);
  }

  // The loop of make_ele over the chain of its first argument adds nothing to check_arg.
  lemma {:induction false} ChainFits(arms: Arms, tab: seq<Signal>)
    ensures CheckChain(ArmsChain(arms, tab), tab)
  {
    if arms.Arms? { ChainFits(arms.rest, tab); }
  }

  lemma FirstFits(e: Expr, tab: seq<Signal>)
    ensures Fits(e, false, tab) ==> CheckChain(Build(e, tab).node, tab)
  {
    NodeShape(e, tab);
    CheckArgIsFits(e, false, tab);
    if e.Case? {
      ChainFits(e.arms, tab);
    } else {
      assert CheckChain(Null, tab);
    }
  }

  // The tree is built without an error exactly for typed expressions.
  lemma {:induction false} BuildIsTyped(e: Expr, tab: seq<Signal>)
    ensures Build(e, tab).ok <==> Typed(e, tab)
    decreases e, 1
  {
    hide CheckArg, Fits;
    match e
      case Var(_) =>
      case Num(_) =>
      case Not(a) =>
        BuildIsTyped(a, tab);
        CheckArgIsFits(a, true, tab);
      case And(a, b) =>
        PairIsTyped(a, b, true, tab);
        BuildIsTyped(a, tab);
        BuildIsTyped(b, tab);
      case Or(a, b) =>
        PairIsTyped(a, b, true, tab);
        BuildIsTyped(a, tab);
        BuildIsTyped(b, tab);
      case Comp(_, a, b) =>
        PairIsTyped(a, b, false, tab);
        BuildIsTyped(a, tab);
        BuildIsTyped(b, tab);
      case In(a, es) =>
        BuildIsTyped(a, tab);
        CheckArgIsFits(a, false, tab);
        FirstFits(a, tab);
        SetBuilt(Built(Null, true), es, tab);
        SetIsTyped(es, tab);
      case Case(arms) =>
        ArmsBuilt(Built(Null, true), arms, tab);
        ArmsAreTyped(arms, tab);
  }

  lemma PairIsTyped(a: Expr, b: Expr, wantbool: bool, tab: seq<Signal>)
    ensures CheckArg(Build(a, tab).node, wantbool, tab) == Fits(a, wantbool, tab)
    ensures CheckArg(Build(b, tab).node, wantbool, tab) == Fits(b, wantbool, tab)
  {
    CheckArgIsFits(a, wantbool, tab);
    CheckArgIsFits(b, wantbool, tab);
  }

  lemma {:induction false} SetIsTyped(es: Exprs, tab: seq<Signal>)
    ensures AllBuilt(es, tab) <==> AllTyped(es, tab)
    decreases es, 0
  {
    if es.Exprs? {
      BuildIsTyped(es.head, tab);
      SetIsTyped(es.tail, tab);
    }
  }

  lemma {:induction false} ArmsAreTyped(arms: Arms, tab: seq<Signal>)
    ensures ArmsTyped(arms, tab) <==> TypedArms(arms, tab)
    decreases arms, 0
  {
    hide CheckArg, Fits;
    if arms.Arms? {
      BuildIsTyped(arms.cond, tab);
      BuildIsTyped(arms.value, tab);
      CheckArgIsFits(arms.cond, true, tab);
      CheckArgIsFits(arms.value, false, tab);
      ArmsAreTyped(arms.rest, tab);
    }
  }

  // ------------------------------------------------------ what is printed is typed

  lemma StillFits(e: Expr, wantbool: bool, tab: seq<Signal>)
    requires Walked(e).Some?
    ensures Fits(Walked(e).value, wantbool, tab) == Fits(e, wantbool, tab)
  {
    KindKept(e);
  }

  // Walking the chain of a set may put a Boolean where an integer is wanted, but the
  // operands of & and | stay Boolean.
  lemma {:induction false} WalkedOperands(e: Expr, tab: seq<Signal>)
    requires Typed(e, tab) && Walked(e).Some?
    ensures BoolOperands(Walked(e).value, tab)
    decreases SizeOf(e), 2
  {
    hide Fits;
    match e
      case Var(_) =>
      case Num(_) =>
      case Not(a) => WalkedOperands(a, tab);
      case And(a, b) =>
        WalkedOperands(a, tab);
        WalkedOperands(b, tab);
        StillFits(a, true, tab);
        StillFits(b, true, tab);
      case Or(a, b) =>
        WalkedOperands(a, tab);
        WalkedOperands(b, tab);
        StillFits(a, true, tab);
        StillFits(b, true, tab);
      case Comp(_, a, b) =>
        WalkedOperands(a, tab);
        WalkedOperands(b, tab);
      case In(a, es) =>
        if Walked(a).Some? { WalkedOperands(a, tab); }
        SetOperands(NoArms, es, tab);
      case Case(arms) => RunOperands(arms, NoExprs, tab);
  }

  lemma ArmOperands(cond: Expr, c: Option<Expr>, v: Option<Expr>, unread: Arms, rest: Option<Arms>, tab: seq<Signal>)
    requires (c.Some? ==> BoolOperands(c.value, tab)) && (v.Some? ==> BoolOperands(v.value, tab))
    requires rest.Some? ==> ArmBoolOperands(rest.value, tab)
    requires c.Some? && IsOne(c.value) ==> IsOne(cond)
    ensures var r := Arm(cond, c, v, unread, rest); r.Some? ==> ArmBoolOperands(r.value, tab)
  {
  }

  lemma {:induction false} RunOperands(arms: Arms, es: Exprs, tab: seq<Signal>)
    requires TypedArms(arms, tab) && AllTyped(es, tab)
    ensures Run(arms, es).Some? ==> ArmBoolOperands(Run(arms, es).value, tab)
    decreases ArmsSize(arms) + SetSize(es), 0
  {
    hide Walked, BoolOperands, Fits;
    if es.Exprs? { HeadSize(es); }
    if arms.Arms? {
      PartOperands(arms.cond, arms.value, tab);
      RunOperands(arms.rest, es, tab);
      ArmOperands(arms.cond, Walked(arms.cond), Walked(arms.value), arms.rest, Run(arms.rest, es), tab);
    } else if es.Exprs? {
      if es.head.Case? {
        RunOperands(es.head.arms, es.tail, tab);
      } else {
        RunOperands(NoArms, es.tail, tab);
        var rest := Run(NoArms, es.tail);
        match es.head {
          case And(a, b) =>
            PartOperands(a, b, tab);
            ArmOperands(a, Walked(a), Walked(b), NoArms, rest, tab);
          case Or(a, b) =>
            PartOperands(a, b, tab);
            ArmOperands(a, Walked(a), Walked(b), NoArms, rest, tab);
          case Comp(_, a, b) =>
            PartOperands(a, b, tab);
            ArmOperands(a, Walked(a), Walked(b), NoArms, rest, tab);
          case In(a, els) =>
            PartOperands(a, a, tab);
            FirstOperands(els, tab);
            ArmOperands(a, Walked(a), WalkedFirst(els), NoArms, rest, tab);
          case _ =>
        }
      }
    }
  }

  lemma {:induction false} PartOperands(a: Expr, b: Expr, tab: seq<Signal>)
    requires Typed(a, tab) && Typed(b, tab)
    ensures Walked(a).Some? ==> BoolOperands(Walked(a).value, tab) && (IsOne(Walked(a).value) ==> IsOne(a))
    ensures Walked(b).Some? ==> BoolOperands(Walked(b).value, tab)
    decreases if SizeOf(a) < SizeOf(b) then SizeOf(b) else SizeOf(a), 3
  {
    hide Walked;
    KindKept(a);
    if Walked(a).Some? { WalkedOperands(a, tab); }
    if Walked(b).Some? { WalkedOperands(b, tab); }
  }

  lemma {:induction false} FirstOperands(es: Exprs, tab: seq<Signal>)
    requires AllTyped(es, tab)
    ensures WalkedFirst(es).Some? ==> BoolOperands(WalkedFirst(es).value, tab)
    decreases SetSize(es), 1
  {
    hide Walked;
    if es.Exprs? {
      HeadSize(es);
      if !es.head.Case? {
        if Walked(es.head).Some? { WalkedOperands(es.head, tab); }
      } else if es.head.arms.NoArms? {
        FirstOperands(es.tail, tab);
      } else {
        RunOperands(es.head.arms, es.tail, tab);
      }
    }
  }

  lemma {:induction false} SetOperands(arms: Arms, es: Exprs, tab: seq<Signal>)
    requires TypedArms(arms, tab) && AllTyped(es, tab)
    ensures WalkedSet(arms, es).Some? ==> SetBoolOperands(WalkedSet(arms, es).value, tab)
    decreases ArmsSize(arms) + SetSize(es), 1
  {
    hide Walked, Run;
    if arms.Arms? {
      RunOperands(arms, es, tab);
      SetOperands(arms.rest, es, tab);
    } else if es.Exprs? {
      HeadSize(es);
      if es.head.Case? {
        SetOperands(es.head.arms, es.tail, tab);
      } else {
        if Walked(es.head).Some? { WalkedOperands(es.head, tab); }
        SetOperands(NoArms, es.tail, tab);
      }
    }
  }

  // --------------------------------------------------------- accepted expressions

  // Every signal that is printed is declared, and no empty case list is printed.
  predicate Declared(e: Expr, tab: seq<Signal>)
  {
    match e
      case Var(name) => FindSymbol(tab, name).Some?
      case Num(_) => true
      case Not(a) => Declared(a, tab)
      case And(a, b) => Declared(a, tab) && Declared(b, tab)
      case Or(a, b) => Declared(a, tab) && Declared(b, tab)
      case Comp(_, a, b) => Declared(a, tab) && Declared(b, tab)
      case In(a, es) => (es.Exprs? ==> Declared(a, tab)) && AllDeclared(es, tab)
      case Case(arms) => arms.Arms? && ArmsDeclared(arms, tab)
  }

  predicate AllDeclared(es: Exprs, tab: seq<Signal>)
  {
    es.Exprs? ==> Declared(es.head, tab) && AllDeclared(es.tail, tab)
  }

  predicate ArmsDeclared(arms: Arms, tab: seq<Signal>)
  {
    arms.Arms? ==>
      Declared(arms.value, tab) && (IsOne(arms.cond) || (Declared(arms.cond, tab) && ArmsDeclared(arms.rest, tab)))
  }

  lemma {:induction false} TextIfDeclared(e: Expr, tab: seq<Signal>)
    ensures Text(e, tab).Some? <==> Declared(e, tab)
    decreases e, 1
  {
    match e
      case Var(_) =>
      case Num(_) =>
      case Not(a) =>
        TextIfDeclared(a, tab);
        Joined2(Just(Bang), Text(a, tab));
      case And(a, b) =>
        TextIfDeclared(a, tab);
        TextIfDeclared(b, tab);
        Joined5(Just(LP), Text(a, tab), Just(Amp), Text(b, tab), Just(RP));
      case Or(a, b) =>
        TextIfDeclared(a, tab);
        TextIfDeclared(b, tab);
        Joined5(Just(LP), Text(a, tab), Just(Bar), Text(b, tab), Just(RP));
      case Comp(op, a, b) =>
        TextIfDeclared(a, tab);
        TextIfDeclared(b, tab);
        Joined5(Just(LP), Text(a, tab), Just(Op(op)), Text(b, tab), Just(RP));
      case In(a, es) =>
        TextIfDeclared(a, tab);
        SetIfDeclared(Text(a, tab), es, tab);
        Joined3(Just(LP), SetText(Text(a, tab), es, tab), Just(RP));
      case Case(arms) =>
        ArmsIfDeclared(arms, tab);
        Joined3(Just(LP), ArmsText(arms, tab), Just(RP));
  }

  lemma {:induction false} SetIfDeclared(a: Option<seq<Tok>>, es: Exprs, tab: seq<Signal>)
    ensures SetText(a, es, tab).Some? <==> (es.Exprs? ==> a.Some?) && AllDeclared(es, tab)
    decreases es, 0
  {
    if es.Exprs? {
      TextIfDeclared(es.head, tab);
      SetIfDeclared(a, es.tail, tab);
      Joined5(a, Just(Op("==")), Text(es.head, tab),
           if es.tail.Exprs? then Just(OrOr) else Some([]), SetText(a, es.tail, tab));
    }
  }

  lemma {:induction false} ArmsIfDeclared(arms: Arms, tab: seq<Signal>)
    ensures ArmsText(arms, tab).Some? <==> ArmsDeclared(arms, tab)
    decreases arms, 0
  {
    if arms.Arms? {
      TextIfDeclared(arms.cond, tab);
      TextIfDeclared(arms.value, tab);
      ArmsIfDeclared(arms.rest, tab);
      Joined5(Text(arms.cond, tab), Just(Quest), Text(arms.value, tab), Just(Colon), ArmsText(arms.rest, tab));
    }
  }

  // hcl2c accepts e for a signal of the given type: no error while building the tree,
  // checking it, or printing it.
  predicate Accepts(e: Expr, isbool: bool, tab: seq<Signal>)
  {
    var b := Build(e, tab);
    b.ok && CheckArg(b.node, isbool, tab) && Gen(b.node, tab).Some?
  }

  // An expression is accepted exactly if it is well typed, gen_expr gets to the end of
  // every chain it walks, and every signal it prints is declared.
  lemma AcceptedIff(e: Expr, isbool: bool, tab: seq<Signal>)
    ensures Accepts(e, isbool, tab) <==>
      Typed(e, tab) && Fits(e, isbool, tab) && Walked(e).Some? && Declared(Walked(e).value, tab)
  {
    BuildIsTyped(e, tab);
    CheckArgIsFits(e, isbool, tab);
    GenIsWalked(e, tab);
    if Walked(e).Some? { TextIfDeclared(Walked(e).value, tab); }
  }
}
