// HCL expressions and the parse tree hcl2c builds for them: archlab-handout/sim/misc/
// hcl.y and node.c.
module Hcl {
  import opened Common

  // --------------------------------------------------------------- source language

  datatype Expr =
    | Var(name: string)
    | Num(text: string)
    | Not(e: Expr)
    | And(a: Expr, b: Expr)
    | Or(a: Expr, b: Expr)
    | Comp(op: string, a: Expr, b: Expr)
    | In(a: Expr, elements: Exprs)                // a in { e, ... }, not empty
    | Case(arms: Arms)                            // [ cond : value; ... ]

  datatype Exprs = NoExprs | Exprs(head: Expr, tail: Exprs)

  datatype Arms = NoArms | Arms(cond: Expr, value: Expr, rest: Arms)

  // The tokens that hcl.lex can produce for COMP and NUM.
  predicate IsComp(op: string) { op == "==" || op == "!=" || op == "<" || op == "<=" || op == ">" || op == ">=" }

  predicate IsDigits(d: string) { d != "" && forall i | 0 <= i < |d| :: '0' <= d[i] <= '9' }

  function Digits(text: string): string { if text != "" && text[0] == '-' then text[1..] else text }

  predicate IsNum(text: string) { IsDigits(Digits(text)) }

  predicate Lexical(e: Expr)
  {
    match e
      case Var(_) => true
      case Num(t) => IsNum(t)
      case Not(a) => Lexical(a)
      case And(a, b) => Lexical(a) && Lexical(b)
      case Or(a, b) => Lexical(a) && Lexical(b)
      case Comp(op, a, b) => IsComp(op) && Lexical(a) && Lexical(b)
      case In(a, es) => Lexical(a) && es.Exprs? && AllLexical(es)
      case Case(arms) => ArmsLexical(arms)
  }

  predicate AllLexical(es: Exprs) { es.Exprs? ==> Lexical(es.head) && AllLexical(es.tail) }

  predicate ArmsLexical(arms: Arms)
  {
    arms.Arms? ==> Lexical(arms.cond) && Lexical(arms.value) && ArmsLexical(arms.rest)
  }

  // ----------------------------------------------------------------------- symbols

  // A declared signal: its name, the quoted C expression that computes it, and whether
  // it is Boolean.
  datatype Signal = Signal(name: string, quote: string, isbool: bool)

  // find_symbol
  function FindSymbol(tab: seq<Signal>, name: string): Option<Signal>
  {
    if tab == [] then None else if tab[0].name == name then Some(tab[0]) else FindSymbol(tab[1..], name)
  }

  // ----------------------------------------------------------------------- meaning

  // The values of the quoted C expressions, and how numerals are read.
  datatype Env = Env(quote: string -> int, numeral: string -> int)

  function Truth(b: bool): int { if b then 1 else 0 }

  function DigitsValue(d: string, base: int): int
  {
    if d == "" then 0 else DigitsValue(d[..|d|-1], base) * base + (d[|d|-1] as int - '0' as int)
  }

  // A numeral as atoll reads it, within the range of its result.
  function Decimal(text: string): int
  {
    var v := DigitsValue(Digits(text), 10);
    if text != "" && text[0] == '-' then -v else v
  }

  function Compare(op: string, x: int, y: int): bool
  {
    if op == "==" then x == y
    else if op == "!=" then x != y
    else if op == "<" then x < y
    else if op == "<=" then x <= y
    else if op == ">" then x > y
    else x >= y
  }

  function SignalValue(name: string, tab: seq<Signal>, env: Env): int
  {
    var s := FindSymbol(tab, name);
    if s.Some? then env.quote(s.value.quote) else 0
  }

  // What an HCL expression means: Boolean connectives on truth values, membership, and
  // the first case whose condition is true, or 0.
  function Meaning(e: Expr, tab: seq<Signal>, env: Env): int
    decreases e
  {
    match e
      case Var(name) => SignalValue(name, tab, env)
      case Num(t) => env.numeral(t)
      case Not(a) => Truth(Meaning(a, tab, env) == 0)
      case And(a, b) => Truth(Meaning(a, tab, env) != 0 && Meaning(b, tab, env) != 0)
      case Or(a, b) => Truth(Meaning(a, tab, env) != 0 || Meaning(b, tab, env) != 0)
      case Comp(op, a, b) => Truth(Compare(op, Meaning(a, tab, env), Meaning(b, tab, env)))
      case In(a, es) => Truth(Member(Meaning(a, tab, env), es, tab, env))
      case Case(arms) => FirstTrue(arms, tab, env)
  }

  predicate Member(v: int, es: Exprs, tab: seq<Signal>, env: Env)
    decreases es
  {
    es.Exprs? && (v == Meaning(es.head, tab, env) || Member(v, es.tail, tab, env))
  }

  function FirstTrue(arms: Arms, tab: seq<Signal>, env: Env): int
    decreases arms
  {
    if arms.NoArms? then 0
    else if Meaning(arms.cond, tab, env) != 0 then Meaning(arms.value, tab, env)
    else FirstTrue(arms.rest, tab, env)
  }

  // --------------------------------------------------------------- the parse tree

  datatype Kind = NVar | NNum | NAnd | NOr | NNot | NComp | NEle | NCase

  // node_rec, with NULL as its own constructor.  Every node of a parse tree has one
  // owner, so the pointer fields can be values.
  datatype Node = Null | Node(kind: Kind, isbool: bool, sval: string, arg1: Node, arg2: Node, next: Node)

  // concat: n2 hung on the last node of n1
  function Concat(n1: Node, n2: Node): Node
  {
    if n1.Null? then n2 else n1.(next := Concat(n1.next, n2))
  }

  // check_arg: true if it reports no error
  predicate CheckArg(arg: Node, wantbool: bool, tab: seq<Signal>)
  {
    if arg.Null? then false
    else if arg.kind == NVar then FindSymbol(tab, arg.sval).Some? && FindSymbol(tab, arg.sval).value.isbool == wantbool
    else if arg.kind == NNum then wantbool ==> arg.sval == "0" || arg.sval == "1"
    else arg.isbool == wantbool
  }

  // The loop of make_ele, which runs over the chain of its first argument.
  predicate CheckChain(ele: Node, tab: seq<Signal>)
  {
    ele.Node? ==> CheckArg(ele, false, tab) && CheckChain(ele.next, tab)
  }

  // A tree under construction and whether no error was reported so far.
  datatype Built = Built(node: Node, ok: bool)

  // The semantic actions of hcl.y.
  function Build(e: Expr, tab: seq<Signal>): Built
  {
    match e
      case Var(name) => Built(Node(NVar, false, name, Null, Null, Null), true)
      case Num(t) => Built(Node(NNum, false, t, Null, Null, Null), true)
      case Not(a) =>
        var x := Build(a, tab);
        Built(Node(NNot, true, "!", x.node, Null, Null), x.ok && CheckArg(x.node, true, tab))
      case And(a, b) =>
        var x, y := Build(a, tab), Build(b, tab);
        Built(Node(NAnd, true, "&", x.node, y.node, Null),
              x.ok && y.ok && CheckArg(x.node, true, tab) && CheckArg(y.node, true, tab))
      case Or(a, b) =>
        var x, y := Build(a, tab), Build(b, tab);
        Built(Node(NOr, true, "|", x.node, y.node, Null),
              x.ok && y.ok && CheckArg(x.node, true, tab) && CheckArg(y.node, true, tab))
      case Comp(op, a, b) =>
        var x, y := Build(a, tab), Build(b, tab);
        Built(Node(NComp, true, op, x.node, y.node, Null),
              x.ok && y.ok && CheckArg(x.node, false, tab) && CheckArg(y.node, false, tab))
      case In(a, es) =>
        var x, l := Build(a, tab), BuildSet(Built(Null, true), es, tab);
        Built(Node(NEle, true, "in", x.node, l.node, Null),
              x.ok && l.ok && CheckArg(x.node, false, tab) && CheckChain(x.node, tab))
      case Case(arms) => BuildArms(Built(Null, true), arms, tab)
  }

  function BuildSet(acc: Built, es: Exprs, tab: seq<Signal>): Built
    decreases es
  {
    if es.NoExprs? then acc
    else
      var x := Build(es.head, tab);
      BuildSet(Built(Concat(acc.node, x.node), acc.ok && x.ok), es.tail, tab)
  }

  function BuildArms(acc: Built, arms: Arms, tab: seq<Signal>): Built
    decreases arms
  {
    if arms.NoArms? then acc
    else
      var c, v := Build(arms.cond, tab), Build(arms.value, tab);
      var n := Node(NCase, false, ":", c.node, v.node, Null);
      BuildArms(Built(Concat(acc.node, n),
                      acc.ok && c.ok && v.ok && CheckArg(c.node, true, tab) &&
                        CheckArg(v.node, false, tab)), arms.rest, tab)
  }

  // ---------------------------------------------------------------- emitted tokens

  datatype Tok =
    | LP | RP | Quote(q: string) | Lit(text: string) | Bang | Op(op: string) | Amp | Bar | OrOr | Quest | Colon

  function Join(xs: seq<Option<seq<Tok>>>): (r: Option<seq<Tok>>)
  {
    if xs == [] then Some([])
    else
      var rest := Join(xs[1..]);
      if xs[0].None? || rest.None? then None else Some(xs[0].value + rest.value)
  }

  function Just(t: Tok): Option<seq<Tok>> { Some([t]) }

  // gen_expr, the branch for C: the tokens printed, or None if it reports an error or
  // follows a null pointer.
  function Gen(n: Node, tab: seq<Signal>): Option<seq<Tok>>
    decreases n, 1
  {
    if n.Null? then None
    else
      match n.kind
        case NVar =>
          if FindSymbol(tab, n.sval).Some? then Some([LP, Quote(FindSymbol(tab, n.sval).value.quote), RP]) else None
        case NNum => Just(Lit(n.sval))
        case NAnd => Join([Just(LP), Gen(n.arg1, tab), Just(Amp), Gen(n.arg2, tab), Just(RP)])
        case NOr => Join([Just(LP), Gen(n.arg1, tab), Just(Bar), Gen(n.arg2, tab), Just(RP)])
        case NNot => Join([Just(Bang), Gen(n.arg1, tab)])
        case NComp => Join([Just(LP), Gen(n.arg1, tab), Just(Op(n.sval)), Gen(n.arg2, tab), Just(RP)])
        case NEle => Join([Just(LP), GenSet(Gen(n.arg1, tab), n.arg2, tab), Just(RP)])
        case NCase => Join([Just(LP), GenArms(n, tab), Just(RP)])
  }

  // The loop of N_ELE; a is the text of the element looked for, printed anew each time.
  function GenSet(a: Option<seq<Tok>>, ele: Node, tab: seq<Signal>): Option<seq<Tok>>
    decreases ele, 2
  {
    if ele.Null? then Some([])
    else
      Join([a, Just(Op("==")), Gen(ele, tab),
           if ele.next.Node? then Just(OrOr) else Some([]), GenSet(a, ele.next, tab)])
  }

  // The loop of N_CASE.
  function GenArms(ele: Node, tab: seq<Signal>): Option<seq<Tok>>
    decreases ele, 0
  {
    if ele.Null? then Just(Lit("0"))
    else if ele.arg1.Null? then None
    else if ele.arg1.kind == NNum && Decimal(ele.arg1.sval) == 1 then Gen(ele.arg2, tab)
    else Join([Gen(ele.arg1, tab), Just(Quest), Gen(ele.arg2, tab), Just(Colon), GenArms(ele.next, tab)])
  }
}
