// The C text of an HCL expression means what the expression means.
module HclCorrect {
  import opened Common
  import opened Hcl
  import opened CText

  // ---------------------------------------------------------- the tree and its text

  predicate IsOne(c: Expr) { c.Num? && Decimal(c.text) == 1 }

  // The text of an expression by recursion on the expression itself.
  function Text(e: Expr, tab: seq<Signal>): Option<seq<Tok>>
    decreases e
  {
    match e
      case Var(name) =>
        if FindSymbol(tab, name).Some? then Some([LP, Quote(FindSymbol(tab, name).value.quote), RP]) else None
      case Num(t) => Just(Lit(t))
      case Not(a) => Join([Just(Bang), Text(a, tab)])
      case And(a, b) => Join([Just(LP), Text(a, tab), Just(Amp), Text(b, tab), Just(RP)])
      case Or(a, b) => Join([Just(LP), Text(a, tab), Just(Bar), Text(b, tab), Just(RP)])
      case Comp(op, a, b) => Join([Just(LP), Text(a, tab), Just(Op(op)), Text(b, tab), Just(RP)])
      case In(a, es) => Join([Just(LP), SetText(Text(a, tab), es, tab), Just(RP)])
      case Case(arms) => if arms.NoArms? then None else Join([Just(LP), ArmsText(arms, tab), Just(RP)])
  }

  function SetText(a: Option<seq<Tok>>, es: Exprs, tab: seq<Signal>): Option<seq<Tok>>
    decreases es
  {
    if es.NoExprs? then Some([])
    else
      Join([a, Just(Op("==")), Text(es.head, tab),
           if es.tail.Exprs? then Just(OrOr) else Some([]), SetText(a, es.tail, tab)])
  }

  function ArmsText(arms: Arms, tab: seq<Signal>): Option<seq<Tok>>
    decreases arms
  {
    if arms.NoArms? then Just(Lit("0"))
    else if arms.cond.Case? && arms.cond.arms.NoArms? then None
    else if IsOne(arms.cond) then Text(arms.value, tab)
    else Join([Text(arms.cond, tab), Just(Quest), Text(arms.value, tab), Just(Colon), ArmsText(arms.rest, tab)])
  }

  // The chains that concat builds.
  function SetChain(es: Exprs, tab: seq<Signal>): Node
  {
    if es.NoExprs? then Null else Concat(Build(es.head, tab).node, SetChain(es.tail, tab))
  }

  function ArmsChain(arms: Arms, tab: seq<Signal>): Node
  {
    if arms.NoArms? then Null
    else Node(NCase, false, ":", Build(arms.cond, tab).node, Build(arms.value, tab).node, ArmsChain(arms.rest, tab))
  }

  lemma {:induction false} ConcatAssoc(a: Node, b: Node, c: Node)
    ensures Concat(Concat(a, b), c) == Concat(a, Concat(b, c))
    ensures Concat(a, Null) == a
  {
    if a.Node? { ConcatAssoc(a.next, b, c); }
  }

  lemma {:induction false} SetIsChain(acc: Built, es: Exprs, tab: seq<Signal>)
    ensures BuildSet(acc, es, tab).node == Concat(acc.node, SetChain(es, tab))
    decreases es
  {
    ConcatAssoc(acc.node, Null, Null);
    if es.Exprs? {
      var x := Build(es.head, tab);
      SetIsChain(Built(Concat(acc.node, x.node), acc.ok && x.ok), es.tail, tab);
      ConcatAssoc(acc.node, x.node, SetChain(es.tail, tab));
    }
  }

  lemma {:induction false} ArmsIsChain(acc: Built, arms: Arms, tab: seq<Signal>)
    ensures BuildArms(acc, arms, tab).node == Concat(acc.node, ArmsChain(arms, tab))
    decreases arms
  {
    ConcatAssoc(acc.node, Null, Null);
    if arms.Arms? {
      var c, v := Build(arms.cond, tab), Build(arms.value, tab);
      var n := Node(NCase, false, ":", c.node, v.node, Null);
      ArmsIsChain(Built(Concat(acc.node, n),
                        acc.ok && c.ok && v.ok && CheckArg(c.node, true, tab) &&
                          CheckArg(v.node, false, tab)), arms.rest, tab);
      ConcatAssoc(acc.node, n, ArmsChain(arms.rest, tab));
    }
  }

  // Only an empty case list builds no node, and only a case list uses the chain.
  lemma NodeShape(e: Expr, tab: seq<Signal>)
    ensures var n := Build(e, tab).node;
      && (n.Null? <==> e.Case? && e.arms.NoArms?)
      && (!e.Case? ==> n.Node? && n.next.Null? && n.kind != NCase)
      && (e.Case? ==> n == ArmsChain(e.arms, tab))
      && (n.Node? ==> (n.kind == NNum <==> e.Num?)) && (e.Num? ==> n.sval == e.text)
  {
    if e.Case? { ArmsIsChain(Built(Null, true), e.arms, tab); }
  }

  // -------------------------------------------------------------- what it parses to

  // Every set that is printed has an element; a condition that is a literal 1 and the
  // arms after it are not printed.
  predicate Filled(e: Expr)
  {
    match e
      case Var(_) => true
      case Num(_) => true
      case Not(a) => Filled(a)
      case And(a, b) => Filled(a) && Filled(b)
      case Or(a, b) => Filled(a) && Filled(b)
      case Comp(_, a, b) => Filled(a) && Filled(b)
      case In(a, es) => es.Exprs? && Filled(a) && SetFilled(es)
      case Case(arms) => ArmsFilled(arms)
  }

  predicate SetFilled(es: Exprs) { es.Exprs? ==> Filled(es.head) && SetFilled(es.tail) }

  predicate ArmsFilled(arms: Arms)
  {
    arms.Arms? ==> Filled(arms.value) && (IsOne(arms.cond) || (Filled(arms.cond) && ArmsFilled(arms.rest)))
  }

  // The C expression tree an HCL expression should become.
  function Trans(e: Expr, tab: seq<Signal>): CExpr
    decreases e
  {
    match e
      case Var(name) => CQuote(if FindSymbol(tab, name).Some? then FindSymbol(tab, name).value.quote else "")
      case Num(t) => CNum(t)
      case Not(a) => CNot(Trans(a, tab))
      case And(a, b) => CBin(Amp, Trans(a, tab), Trans(b, tab))
      case Or(a, b) => CBin(Bar, Trans(a, tab), Trans(b, tab))
      case Comp(op, a, b) => CBin(Op(op), Trans(a, tab), Trans(b, tab))
      case In(a, es) =>
        if es.NoExprs? then CNum("0")
        else TransSet(CBin(Op("=="), Trans(a, tab), Trans(es.head, tab)), Trans(a, tab), es.tail, tab)
      case Case(arms) => TransArms(arms, tab)
  }

  function TransSet(acc: CExpr, a: CExpr, es: Exprs, tab: seq<Signal>): CExpr
    decreases es
  {
    if es.NoExprs? then acc
    else TransSet(CBin(OrOr, acc, CBin(Op("=="), a, Trans(es.head, tab))), a, es.tail, tab)
  }

  function TransArms(arms: Arms, tab: seq<Signal>): CExpr
    decreases arms
  {
    if arms.NoArms? then CNum("0")
    else if IsOne(arms.cond) then Trans(arms.value, tab)
    else CCond(Trans(arms.cond, tab), Trans(arms.value, tab), TransArms(arms.rest, tab))
  }

  // rest does not go on with an operator of level k or tighter.
  predicate Stops(k: nat, rest: seq<Tok>) { rest == [] || Level(rest[0]) < k }

  // toks starts with a unary expression c and goes on with rest.
  predicate Reads(toks: seq<Tok>, c: CExpr, rest: seq<Tok>) { ParseUnary(toks) == Some((c, rest)) }

  lemma {:induction false} Climb(k: nat, toks: seq<Tok>, c: CExpr, rest: seq<Tok>)
    requires 0 < k <= UNARY && Reads(toks, c, rest) && Stops(k, rest)
    ensures ParseAt(k, toks) == Some((c, rest))
    decreases UNARY - k
  {
    if k < UNARY {
      Climb(k + 1, toks, c, rest);
    }
  }

  lemma AtCond(toks: seq<Tok>, c: CExpr, rest: seq<Tok>)
    requires ParseAt(1, toks) == Some((c, rest)) && (rest == [] || rest[0] != Quest)
    ensures ParseAt(COND, toks) == Some((c, rest))
  {
  }

  // Two operands and an operator, seen from any level down to k.
  lemma {:induction false} Operator(k: nat, t: Tok, toks: seq<Tok>, a: CExpr, right: seq<Tok>, b: CExpr, rest: seq<Tok>)
    requires 0 < k <= Level(t) < UNARY
    requires Reads(toks, a, [t] + right) && Reads(right, b, rest) && Stops(k, rest)
    ensures ParseAt(k, toks) == Some((CBin(t, a, b), rest))
    decreases Level(t) - k
  {
    if k == Level(t) {
      Climb(k + 1, toks, a, [t] + right);
      Climb(k + 1, right, b, rest);
      assert ([t] + right)[0] == t && ([t] + right)[1..] == right;
      assert ParseRest(k, CBin(t, a, b), rest) == Some((CBin(t, a, b), rest));
      assert ParseRest(k, a, [t] + right) == Some((CBin(t, a, b), rest));
    } else {
      Operator(k + 1, t, toks, a, right, b, rest);
    }
  }

  // ---- concatenations

  lemma Joined2(x: Option<seq<Tok>>, y: Option<seq<Tok>>)
    ensures Join([x, y]) == if x.None? || y.None? then None else Some(x.value + y.value)
  {
    assert [x, y][1..] == [y] && [y][1..] == [];
    assert Join([y]) == if y.None? then None else Some(y.value + []);
    assert y.Some? ==> y.value + [] == y.value;
  }

  lemma Joined3(x: Option<seq<Tok>>, y: Option<seq<Tok>>, z: Option<seq<Tok>>)
    ensures Join([x, y, z]) == if x.None? || y.None? || z.None? then None else Some(x.value + (y.value + z.value))
  {
    assert [x, y, z][1..] == [y, z];
    Joined2(y, z);
  }

  lemma Joined5(x: Option<seq<Tok>>, y: Option<seq<Tok>>, z: Option<seq<Tok>>, u: Option<seq<Tok>>, v: Option<seq<Tok>>)
    ensures Join([x, y, z, u, v]) ==
      if x.None? || y.None? || z.None? || u.None? || v.None? then None
      else Some(x.value + (y.value + (z.value + (u.value + v.value))))
  {
    assert [x, y, z, u, v][1..] == [y, z, u, v] && [y, z, u, v][1..] == [z, u, v];
    Joined3(z, u, v);
  }

  // ---- parsing the text

  // Wherever it stands, the text of an expression reads as that expression.
  lemma {:induction false} TextReads(e: Expr, tab: seq<Signal>, rest: seq<Tok>)
    requires Filled(e) && Text(e, tab).Some?
    ensures Reads(Text(e, tab).value + rest, Trans(e, tab), rest)
    decreases e, 1
  {
    hide ParseUnary, ParseAt, Reads;
    match e
      case Var(name) => SignalReads(FindSymbol(tab, name).value.quote, rest);
      case Num(t) => LitReads(t, rest);
      case Not(a) =>
        Joined2(Just(Bang), Text(a, tab));
        var x := Text(a, tab).value;
        TextReads(a, tab, rest);
        NotReads(x, Trans(a, tab), rest);
      case And(a, b) =>
        Joined5(Just(LP), Text(a, tab), Just(Amp), Text(b, tab), Just(RP));
        TextReads(a, tab, [Amp] + (Text(b, tab).value + ([RP] + rest)));
        TextReads(b, tab, [RP] + rest);
        PairReads(Amp, Text(a, tab).value, Trans(a, tab), Text(b, tab).value, Trans(b, tab), rest);
      case Or(a, b) =>
        Joined5(Just(LP), Text(a, tab), Just(Bar), Text(b, tab), Just(RP));
        TextReads(a, tab, [Bar] + (Text(b, tab).value + ([RP] + rest)));
        TextReads(b, tab, [RP] + rest);
        PairReads(Bar, Text(a, tab).value, Trans(a, tab), Text(b, tab).value, Trans(b, tab), rest);
      case Comp(op, a, b) =>
        Joined5(Just(LP), Text(a, tab), Just(Op(op)), Text(b, tab), Just(RP));
        TextReads(a, tab, [Op(op)] + (Text(b, tab).value + ([RP] + rest)));
        TextReads(b, tab, [RP] + rest);
        PairReads(Op(op), Text(a, tab).value, Trans(a, tab), Text(b, tab).value, Trans(b, tab), rest);
      case In(a, es) =>
        var x := SetText(Text(a, tab), es, tab);
        Joined3(Just(LP), x, Just(RP));
        SetTextParts(Text(a, tab), es, tab);
        forall more: seq<Tok> ensures Reads(Text(a, tab).value + more, Trans(a, tab), more) {
          TextReads(a, tab, more);
        }
        SetReads(Text(a, tab).value, Trans(a, tab), es, tab, [RP] + rest);
        AtCond(x.value + ([RP] + rest), Trans(e, tab), [RP] + rest);
        Parenthesized(x.value, Trans(e, tab), rest);
      case Case(arms) =>
        var x := ArmsText(arms, tab);
        Joined3(Just(LP), x, Just(RP));
        ArmsRead(arms, tab, [RP] + rest);
        Parenthesized(x.value, Trans(e, tab), rest);
  }

  lemma LitReads(t: string, rest: seq<Tok>)
    ensures Reads([Lit(t)] + rest, CNum(t), rest)
  {
    assert ([Lit(t)] + rest)[1..] == rest;
  }

  lemma NotReads(x: seq<Tok>, c: CExpr, rest: seq<Tok>)
    requires Reads(x + rest, c, rest)
    ensures Reads([Bang] + x + rest, CNot(c), rest)
  {
    assert ([Bang] + x + rest)[1..] == x + rest;
  }

  lemma SignalReads(q: string, rest: seq<Tok>)
    ensures Reads([LP, Quote(q), RP] + rest, CQuote(q), rest)
  {
    var toks := [LP, Quote(q), RP] + rest;
    assert toks[1..] == [Quote(q)] + ([RP] + rest);
    assert ([Quote(q)] + ([RP] + rest))[1..] == [RP] + rest;
    Climb(1, toks[1..], CQuote(q), [RP] + rest);
    AtCond(toks[1..], CQuote(q), [RP] + rest);
    assert ([RP] + rest)[1..] == rest;
  }

  lemma Parenthesized(x: seq<Tok>, c: CExpr, rest: seq<Tok>)
    requires ParseAt(COND, x + ([RP] + rest)) == Some((c, [RP] + rest))
    ensures Reads([LP] + (x + [RP]) + rest, c, rest)
  {
    var toks := [LP] + (x + [RP]) + rest;
    assert toks[1..] == x + ([RP] + rest);
    assert ([RP] + rest)[1..] == rest;
  }

  // ( x t y )
  lemma PairReads(t: Tok, x: seq<Tok>, a: CExpr, y: seq<Tok>, b: CExpr, rest: seq<Tok>)
    requires 0 < Level(t) < UNARY
    requires Reads(x + ([t] + (y + ([RP] + rest))), a, [t] + (y + ([RP] + rest)))
    requires Reads(y + ([RP] + rest), b, [RP] + rest)
    ensures Reads([LP] + (x + ([t] + (y + [RP]))) + rest, CBin(t, a, b), rest)
  {
    hide ParseUnary, ParseAt, Reads;
    var more := [RP] + rest;
    var toks := x + ([t] + (y + more));
    Operator(1, t, toks, a, y + more, b, more);
    AtCond(toks, CBin(t, a, b), more);
    assert toks == (x + ([t] + y)) + more;
    assert [LP] + (x + ([t] + (y + [RP]))) == [LP] + ((x + ([t] + y)) + [RP]);
    Parenthesized(x + ([t] + y), CBin(t, a, b), rest);
  }

  // x == y, an alternative of a set test.
  lemma AlternativeReads(x: seq<Tok>, a: CExpr, y: seq<Tok>, b: CExpr, more: seq<Tok>)
    requires Reads(x + ([Op("==")] + (y + more)), a, [Op("==")] + (y + more))
    requires Reads(y + more, b, more) && Stops(2, more)
    ensures ParseAt(2, x + ([Op("==")] + (y + more))) == Some((CBin(Op("=="), a, b), more))
  {
    hide ParseUnary, ParseAt, Reads;
    Operator(2, Op("=="), x + ([Op("==")] + (y + more)), a, y + more, b, more);
  }

  // What follows the first alternative.
  function More(a: Option<seq<Tok>>, es: Exprs, tab: seq<Signal>): seq<Tok>
    requires SetText(a, es, tab).Some?
  {
    (if es.Exprs? then [OrOr] else []) + SetText(a, es, tab).value
  }

  lemma SetTextParts(a: Option<seq<Tok>>, es: Exprs, tab: seq<Signal>)
    requires es.Exprs? && SetText(a, es, tab).Some?
    ensures a.Some? && Text(es.head, tab).Some? && SetText(a, es.tail, tab).Some?
    ensures SetText(a, es, tab).value == a.value + ([Op("==")] + (Text(es.head, tab).value + More(a, es.tail, tab)))
  {
    var o := if es.tail.Exprs? then Just(OrOr) else Some([]);
    Joined5(a, Just(Op("==")), Text(es.head, tab), o, SetText(a, es.tail, tab));
  }

  // x reads as c wherever it stands.
  ghost predicate ReadsAs(x: seq<Tok>, c: CExpr)
  {
    forall more: seq<Tok> :: Reads(x + more, c, more)
  }

  // One element test, up to what follows it.
  lemma {:induction false} ElementReads(x: seq<Tok>, a: CExpr, es: Exprs, tab: seq<Signal>, rest: seq<Tok>)
    requires ReadsAs(x, a) && es.Exprs? && Filled(es.head) && SetText(Some(x), es, tab).Some?
    requires Stops(1, rest) && rest != []
    ensures SetText(Some(x), es.tail, tab).Some?
    ensures ParseAt(2, SetText(Some(x), es, tab).value + rest) ==
      Some((CBin(Op("=="), a, Trans(es.head, tab)), More(Some(x), es.tail, tab) + rest))
    decreases es, 0
  {
    hide ParseUnary, ParseAt, Reads, SetText, Text, Trans;
    SetTextParts(Some(x), es, tab);
    var y := Text(es.head, tab).value;
    var more := More(Some(x), es.tail, tab) + rest;
    EndOfSet(Some(x), es.tail, tab);
    TextReads(es.head, tab, more);
    assert Reads(x + ([Op("==")] + (y + more)), a, [Op("==")] + (y + more));
    AlternativeReads(x, a, y, Trans(es.head, tab), more);
    assert x + ([Op("==")] + (y + more)) == SetText(Some(x), es, tab).value + rest;
  }

  lemma EndOfSet(a: Option<seq<Tok>>, es: Exprs, tab: seq<Signal>)
    requires SetText(a, es, tab).Some?
    ensures es.NoExprs? ==> More(a, es, tab) == []
    ensures es.Exprs? ==> More(a, es, tab) != [] && More(a, es, tab)[0] == OrOr
  {
  }

  // The element tests after the first.
  lemma {:induction false} MoreReads(acc: CExpr, x: seq<Tok>, a: CExpr, es: Exprs, tab: seq<Signal>, rest: seq<Tok>)
    requires ReadsAs(x, a) && SetFilled(es) && SetText(Some(x), es, tab).Some?
    requires Stops(1, rest) && rest != []
    ensures ParseRest(1, acc, More(Some(x), es, tab) + rest) == Some((TransSet(acc, a, es, tab), rest))
    decreases es, 1
  {
    hide ParseUnary, ParseAt, Reads, SetText, Text, Trans, ReadsAs;
    EndOfSet(Some(x), es, tab);
    if es.NoExprs? {
      assert More(Some(x), es, tab) + rest == rest;
    } else {
      var toks := More(Some(x), es, tab) + rest;
      assert toks[0] == OrOr && toks[1..] == SetText(Some(x), es, tab).value + rest;
      ElementReads(x, a, es, tab, rest);
      MoreReads(CBin(OrOr, acc, CBin(Op("=="), a, Trans(es.head, tab))), x, a, es.tail, tab, rest);
    }
  }

  lemma {:induction false} SetReads(x: seq<Tok>, a: CExpr, es: Exprs, tab: seq<Signal>, rest: seq<Tok>)
    requires ReadsAs(x, a) && es.Exprs? && SetFilled(es) && SetText(Some(x), es, tab).Some?
    requires Stops(1, rest) && rest != []
    ensures ParseAt(1, SetText(Some(x), es, tab).value + rest) ==
      Some((TransSet(CBin(Op("=="), a, Trans(es.head, tab)), a, es.tail, tab), rest))
    decreases es, 1
  {
    hide ParseUnary, Reads, SetText, Text, Trans, ReadsAs;
    ElementReads(x, a, es, tab, rest);
    MoreReads(CBin(Op("=="), a, Trans(es.head, tab)), x, a, es.tail, tab, rest);
  }

  lemma {:induction false} ArmsRead(arms: Arms, tab: seq<Signal>, rest: seq<Tok>)
    requires ArmsFilled(arms) && ArmsText(arms, tab).Some?
    requires Stops(1, rest) && rest != [] && rest[0] != Quest
    ensures ParseAt(COND, ArmsText(arms, tab).value + rest) == Some((TransArms(arms, tab), rest))
    decreases arms, 0
  {
    hide ParseUnary, ParseAt, Reads, Text, Trans;
    if arms.NoArms? {
      ZeroReads(rest);
    } else if IsOne(arms.cond) {
      TextReads(arms.value, tab, rest);
      CondReads(Text(arms.value, tab).value + rest, Trans(arms.value, tab), rest);
    } else {
      var c, v, r := Text(arms.cond, tab), Text(arms.value, tab), ArmsText(arms.rest, tab);
      Joined5(c, Just(Quest), v, Just(Colon), r);
      var afterV := [Colon] + (r.value + rest);
      var afterC := [Quest] + (v.value + afterV);
      TextReads(arms.cond, tab, afterC);
      TextReads(arms.value, tab, afterV);
      CondReads(v.value + afterV, Trans(arms.value, tab), afterV);
      Climb(1, c.value + afterC, Trans(arms.cond, tab), afterC);
      ArmsRead(arms.rest, tab, rest);
      Conditional(c.value + afterC, Trans(arms.cond, tab), v.value + afterV, Trans(arms.value, tab),
                  r.value + rest, TransArms(arms.rest, tab), rest);
      assert ArmsText(arms, tab).value + rest == c.value + afterC;
    }
  }

  lemma ZeroReads(rest: seq<Tok>)
    requires Stops(1, rest) && (rest == [] || rest[0] != Quest)
    ensures ParseAt(COND, [Lit("0")] + rest) == Some((CNum("0"), rest))
  {
    assert ([Lit("0")] + rest)[1..] == rest;
    CondReads([Lit("0")] + rest, CNum("0"), rest);
  }

  lemma CondReads(toks: seq<Tok>, c: CExpr, rest: seq<Tok>)
    requires Reads(toks, c, rest) && Stops(1, rest) && (rest == [] || rest[0] != Quest)
    ensures ParseAt(COND, toks) == Some((c, rest))
  {
    hide Reads, ParseUnary;
    Climb(1, toks, c, rest);
    AtCond(toks, c, rest);
  }

  // c ? v : f
  lemma Conditional(toks: seq<Tok>, c: CExpr, vs: seq<Tok>, v: CExpr, fs: seq<Tok>, f: CExpr, rest: seq<Tok>)
    requires ParseAt(1, toks) == Some((c, [Quest] + vs))
    requires ParseAt(COND, vs) == Some((v, [Colon] + fs))
    requires ParseAt(COND, fs) == Some((f, rest))
    ensures ParseAt(COND, toks) == Some((CCond(c, v, f), rest))
  {
    assert ([Quest] + vs)[1..] == vs && ([Colon] + fs)[1..] == fs;
  }

  // ---- an empty set spoils the text

  lemma {:induction false} ClimbFails(k: nat, toks: seq<Tok>)
    requires k <= UNARY && ParseUnary(toks).None?
    ensures ParseAt(k, toks).None?
    decreases UNARY - k
  {
    if k < UNARY { ClimbFails(k + 1, toks); }
  }

  lemma {:induction false} OperatorFails(k: nat, t: Tok, toks: seq<Tok>, a: CExpr, right: seq<Tok>)
    requires 0 < k <= Level(t) < UNARY && Reads(toks, a, [t] + right) && ParseUnary(right).None?
    ensures ParseAt(k, toks).None?
    decreases Level(t) - k
  {
    if k == Level(t) {
      Climb(k + 1, toks, a, [t] + right);
      ClimbFails(k + 1, right);
      assert ([t] + right)[0] == t && ([t] + right)[1..] == right;
      assert ParseRest(k, a, [t] + right).None?;
    } else {
      OperatorFails(k + 1, t, toks, a, right);
    }
  }

  lemma ParenFails(x: seq<Tok>, rest: seq<Tok>)
    requires ParseAt(COND, x + ([RP] + rest)).None?
    ensures ParseUnary([LP] + (x + [RP]) + rest).None?
  {
    var toks := [LP] + (x + [RP]) + rest;
    assert toks[1..] == x + ([RP] + rest);
  }

  lemma PairFails(t: Tok, x: seq<Tok>, a: CExpr, y: seq<Tok>, rest: seq<Tok>)
    requires 0 < Level(t) < UNARY
    requires var right := y + ([RP] + rest);
      ParseUnary(x + ([t] + right)).None? || (Reads(x + ([t] + right), a, [t] + right) && ParseUnary(right).None?)
    ensures ParseUnary([LP] + (x + ([t] + (y + [RP]))) + rest).None?
  {
    hide ParseUnary, ParseAt, Reads;
    var right := y + ([RP] + rest);
    var toks := x + ([t] + right);
    if ParseUnary(toks).None? { ClimbFails(1, toks); } else { OperatorFails(1, t, toks, a, right); }
    CondFails(toks);
    assert toks == (x + ([t] + y)) + ([RP] + rest);
    assert [LP] + (x + ([t] + (y + [RP]))) == [LP] + ((x + ([t] + y)) + [RP]);
    ParenFails(x + ([t] + y), rest);
  }

  lemma CondFails(toks: seq<Tok>)
    requires ParseAt(1, toks).None?
    ensures ParseAt(COND, toks).None?
  {
  }

  // A text in which some set has no element is no expression.
  lemma {:induction false} TextFails(e: Expr, tab: seq<Signal>, rest: seq<Tok>)
    requires Text(e, tab).Some? && !Filled(e)
    ensures ParseUnary(Text(e, tab).value + rest).None?
    decreases e, 1
  {
    hide ParseUnary, ParseAt, Reads;
    PartsText(e, tab);
    match e
      case Not(a) =>
        Joined2(Just(Bang), Text(a, tab));
        TextFails(a, tab, rest);
        NotFails(Text(a, tab).value, rest);
      case And(a, b) =>
        Joined5(Just(LP), Text(a, tab), Just(Amp), Text(b, tab), Just(RP));
        OperandFails(e, Amp, a, b, tab, rest);
      case Or(a, b) =>
        Joined5(Just(LP), Text(a, tab), Just(Bar), Text(b, tab), Just(RP));
        OperandFails(e, Bar, a, b, tab, rest);
      case Comp(op, a, b) =>
        Joined5(Just(LP), Text(a, tab), Just(Op(op)), Text(b, tab), Just(RP));
        OperandFails(e, Op(op), a, b, tab, rest);
      case In(a, es) =>
        var x := SetText(Text(a, tab), es, tab);
        Joined3(Just(LP), x, Just(RP));
        SetFails(e, a, es, tab, [RP] + rest);
        ParenFails(x.value, rest);
      case Case(arms) =>
        var x := ArmsText(arms, tab);
        Joined3(Just(LP), x, Just(RP));
        ArmsFail(arms, tab, [RP] + rest);
        ParenFails(x.value, rest);
  }

  lemma NotFails(x: seq<Tok>, rest: seq<Tok>)
    requires ParseUnary(x + rest).None?
    ensures ParseUnary([Bang] + x + rest).None?
  {
    assert ([Bang] + x + rest)[1..] == x + rest;
  }

  lemma {:induction false} OperandFails(e: Expr, t: Tok, a: Expr, b: Expr, tab: seq<Signal>, rest: seq<Tok>)
    requires a < e && b < e && 0 < Level(t) < UNARY && Text(a, tab).Some? && Text(b, tab).Some?
    requires !(Filled(a) && Filled(b))
    ensures ParseUnary([LP] + (Text(a, tab).value + ([t] + (Text(b, tab).value + [RP]))) + rest).None?
    decreases e, 0
  {
    hide ParseUnary, ParseAt, Reads;
    var right := Text(b, tab).value + ([RP] + rest);
    if Filled(a) {
      TextReads(a, tab, [t] + right);
      TextFails(b, tab, [RP] + rest);
    } else {
      TextFails(a, tab, [t] + right);
    }
    PairFails(t, Text(a, tab).value, Trans(a, tab), Text(b, tab).value, rest);
  }

  lemma {:induction false} SetFails(e: Expr, a: Expr, es: Exprs, tab: seq<Signal>, rest: seq<Tok>)
    requires e == In(a, es) && SetText(Text(a, tab), es, tab).Some? && !(es.Exprs? && Filled(a) && SetFilled(es))
    requires Stops(1, rest) && rest != [] && rest[0] == RP
    ensures ParseAt(COND, SetText(Text(a, tab), es, tab).value + rest).None?
    decreases e, 0
  {
    hide ParseUnary, Reads, Text, Trans;
    var toks := SetText(Text(a, tab), es, tab).value + rest;
    if es.NoExprs? {
      assert toks == rest;
      NoExpression(rest);
      ClimbFails(COND, toks);
    } else {
      SetTextParts(Text(a, tab), es, tab);
      var x := Text(a, tab).value;
      if Filled(a) {
        forall more: seq<Tok> ensures Reads(x + more, Trans(a, tab), more) {
          TextReads(a, tab, more);
        }
        if Filled(es.head) {
          ElementReads(x, Trans(a, tab), es, tab, rest);
          MoreFails(CBin(Op("=="), Trans(a, tab), Trans(es.head, tab)), x, Trans(a, tab), es.tail, tab, rest);
        } else {
          ElementFails(x, Trans(a, tab), es, tab, rest);
        }
        CondFails(toks);
      } else {
        var more := [Op("==")] + (Text(es.head, tab).value + More(Text(a, tab), es.tail, tab));
        assert toks == x + (more + rest);
        TextFails(a, tab, more + rest);
        ClimbFails(COND, toks);
      }
    }
  }

  lemma NoExpression(rest: seq<Tok>)
    requires rest != [] && rest[0] == RP
    ensures ParseUnary(rest).None?
  {
  }

  lemma {:induction false} ElementFails(x: seq<Tok>, a: CExpr, es: Exprs, tab: seq<Signal>, rest: seq<Tok>)
    requires ReadsAs(x, a) && es.Exprs? && !Filled(es.head) && SetText(Some(x), es, tab).Some?
    ensures ParseAt(2, SetText(Some(x), es, tab).value + rest).None?
    decreases es, 0
  {
    hide ParseUnary, ParseAt, Reads, SetText, Text, Trans;
    SetTextParts(Some(x), es, tab);
    var y := Text(es.head, tab).value;
    var more := More(Some(x), es.tail, tab) + rest;
    TextFails(es.head, tab, more);
    assert Reads(x + ([Op("==")] + (y + more)), a, [Op("==")] + (y + more));
    OperatorFails(2, Op("=="), x + ([Op("==")] + (y + more)), a, y + more);
    assert x + ([Op("==")] + (y + more)) == SetText(Some(x), es, tab).value + rest;
  }

  lemma {:induction false} MoreFails(acc: CExpr, x: seq<Tok>, a: CExpr, es: Exprs, tab: seq<Signal>, rest: seq<Tok>)
    requires ReadsAs(x, a) && !SetFilled(es) && SetText(Some(x), es, tab).Some?
    requires Stops(1, rest) && rest != []
    ensures ParseRest(1, acc, More(Some(x), es, tab) + rest).None?
    decreases es, 1
  {
    hide ParseUnary, ParseAt, Reads, SetText, Text, Trans, ReadsAs;
    EndOfSet(Some(x), es, tab);
    var toks := More(Some(x), es, tab) + rest;
    assert toks[0] == OrOr && toks[1..] == SetText(Some(x), es, tab).value + rest;
    if Filled(es.head) {
      ElementReads(x, a, es, tab, rest);
      MoreFails(CBin(OrOr, acc, CBin(Op("=="), a, Trans(es.head, tab))), x, a, es.tail, tab, rest);
    } else {
      ElementFails(x, a, es, tab, rest);
    }
  }

  lemma {:induction false} ArmsFail(arms: Arms, tab: seq<Signal>, rest: seq<Tok>)
    requires ArmsText(arms, tab).Some? && !ArmsFilled(arms)
    requires Stops(1, rest) && rest != [] && rest[0] != Quest
    ensures ParseAt(COND, ArmsText(arms, tab).value + rest).None?
    decreases arms, 0
  {
    hide ParseUnary, ParseAt, Reads, Text, Trans;
    if IsOne(arms.cond) {
      TextFails(arms.value, tab, rest);
      ClimbFails(COND, Text(arms.value, tab).value + rest);
    } else {
      var c, v, r := Text(arms.cond, tab), Text(arms.value, tab), ArmsText(arms.rest, tab);
      Joined5(c, Just(Quest), v, Just(Colon), r);
      var afterV := [Colon] + (r.value + rest);
      var afterC := [Quest] + (v.value + afterV);
      assert ArmsText(arms, tab).value + rest == c.value + afterC;
      if !Filled(arms.cond) {
        TextFails(arms.cond, tab, afterC);
        ClimbFails(COND, c.value + afterC);
      } else {
        TextReads(arms.cond, tab, afterC);
        Climb(1, c.value + afterC, Trans(arms.cond, tab), afterC);
        if !Filled(arms.value) {
          TextFails(arms.value, tab, afterV);
          ClimbFails(COND, v.value + afterV);
          BranchFails(c.value + afterC, Trans(arms.cond, tab), v.value + afterV);
        } else {
          TextReads(arms.value, tab, afterV);
          CondReads(v.value + afterV, Trans(arms.value, tab), afterV);
          ArmsFail(arms.rest, tab, rest);
          ConditionalFails(c.value + afterC, Trans(arms.cond, tab), v.value + afterV, Trans(arms.value, tab),
            r.value + rest);
        }
      }
    }
  }

  lemma BranchFails(toks: seq<Tok>, c: CExpr, vs: seq<Tok>)
    requires ParseAt(1, toks) == Some((c, [Quest] + vs)) && ParseAt(COND, vs).None?
    ensures ParseAt(COND, toks).None?
  {
    assert ([Quest] + vs)[1..] == vs;
  }

  lemma ConditionalFails(toks: seq<Tok>, c: CExpr, vs: seq<Tok>, v: CExpr, fs: seq<Tok>)
    requires ParseAt(1, toks) == Some((c, [Quest] + vs))
    requires ParseAt(COND, vs) == Some((v, [Colon] + fs)) && ParseAt(COND, fs).None?
    ensures ParseAt(COND, toks).None?
  {
    assert ([Quest] + vs)[1..] == vs && ([Colon] + fs)[1..] == fs;
  }

  // ------------------------------------------------------------------ what it means

  // Boolean signals compute 0 or 1.
  predicate TruthSignals(tab: seq<Signal>, env: Env)
  {
    forall i | 0 <= i < |tab| && tab[i].isbool :: env.quote(tab[i].quote) == 0 || env.quote(tab[i].quote) == 1
  }

  // A numeral C and HCL read alike: see NumeralsAlike.
  predicate NumeralOk(text: string)
  {
    var d := Digits(text);
    && (|d| > 1 && d[0] == '0' ==> (forall i | 0 <= i < |d| - 1 :: d[i] == '0') && d[|d|-1] <= '7')
    && DigitsValue(d, 10) < LLONG_LIMIT
  }

  // Every numeral in the emitted text is ok; a condition that is a literal 1 and the arms
  // after it are not emitted.
  predicate EveryNumeral(e: Expr, ok: string -> bool)
  {
    match e
      case Var(_) => true
      case Num(t) => ok(t)
      case Not(a) => EveryNumeral(a, ok)
      case And(a, b) => EveryNumeral(a, ok) && EveryNumeral(b, ok)
      case Or(a, b) => EveryNumeral(a, ok) && EveryNumeral(b, ok)
      case Comp(_, a, b) => EveryNumeral(a, ok) && EveryNumeral(b, ok)
      case In(a, es) => EveryNumeral(a, ok) && EverySetNumeral(es, ok)
      case Case(arms) => EveryArmNumeral(arms, ok)
  }

  predicate EverySetNumeral(es: Exprs, ok: string -> bool)
  {
    es.Exprs? ==> EveryNumeral(es.head, ok) && EverySetNumeral(es.tail, ok)
  }

  predicate EveryArmNumeral(arms: Arms, ok: string -> bool)
  {
    arms.Arms? ==>
      EveryNumeral(arms.value, ok) &&
        (IsOne(arms.cond) || (EveryNumeral(arms.cond, ok) && EveryArmNumeral(arms.rest, ok)))
  }

  // Every printed numeral is a C constant.
  predicate Readable(e: Expr) { EveryNumeral(e, t => CValue(t).Some?) }

  // Every printed numeral is a C constant with the value it has in HCL.
  predicate NumeralsOk(e: Expr) { EveryNumeral(e, t => IsNum(t) && NumeralOk(t)) }

  // A literal 1 is read as 1.
  ghost predicate ReadsOnes(env: Env)
  {
    forall t {:trigger env.numeral(t)} | Decimal(t) == 1 :: env.numeral(t) == 1
  }

  // Numerals are read as C constants.
  ghost predicate ReadsC(env: Env)
  {
    ReadsOnes(env) && forall t {:trigger CValue(t)} | CValue(t).Some? :: env.numeral(t) == CValue(t).value
  }

  lemma {:induction false} Zeros(d: string, base: int)
    requires forall i | 0 <= i < |d| :: d[i] == '0'
    ensures DigitsValue(d, base) == 0
  {
    if d != "" { Zeros(d[..|d|-1], base); }
  }

  // Octal never exceeds decimal, and stays below it once a digit other than 0 has
  // another digit after it.
  lemma {:induction false} OctalBelow(d: string)
    requires forall i | 0 <= i < |d| :: '0' <= d[i] <= '9'
    ensures 0 <= DigitsValue(d, 8) <= DigitsValue(d, 10)
    ensures (exists i | 0 <= i < |d| - 1 :: d[i] != '0') <==> DigitsValue(d, 8) != DigitsValue(d, 10)
    ensures (exists i | 0 <= i < |d| :: d[i] != '0') <==> DigitsValue(d, 8) != 0
  {
    if d != "" {
      var c := d[..|d|-1];
      OctalBelow(c);
      assert (exists i | 0 <= i < |c| :: c[i] != '0') <==> (exists i | 0 <= i < |d| - 1 :: d[i] != '0') by {
        forall i | 0 <= i < |c| ensures c[i] == d[i] {}
      }
    }
  }

  // C reads a numeral as hcl2c meant it exactly if long long holds it and it has no
  // leading zero, or consists of zeros before a last digit up to 7.
  lemma NumeralsAlike(text: string)
    requires IsNum(text)
    ensures CValue(text) == Some(Decimal(text)) <==> NumeralOk(text)
  {
    var d := Digits(text);
    OctalBelow(d);
    if |d| > 1 && d[0] == '0' && forall i | 0 <= i < |d| - 1 :: d[i] == '0' {
      assert d[|d|-1] <= '7' ==> forall i | 0 <= i < |d| :: d[i] <= '7';
      Zeros(d[..|d|-1], 8);
    }
  }

  // However it is written, a literal 1 is 1 in C.
  lemma OneIsOne(text: string)
    requires IsNum(text) && Decimal(text) == 1
    ensures CValue(text) == Some(1)
  {
    var d := Digits(text);
    OctalBelow(d);
    assert DigitsValue(d, 10) == 1;
    if exists i | 0 <= i < |d| :: d[i] > '7' {
      OctalSmall(d);
    }
  }

  lemma {:induction false} OctalSmall(d: string)
    requires forall i | 0 <= i < |d| :: '0' <= d[i] <= '9'
    ensures DigitsValue(d, 10) <= 1 ==> forall i | 0 <= i < |d| :: d[i] <= '1'
    ensures 0 <= DigitsValue(d, 10)
  {
    if d != "" {
      var c := d[..|d|-1];
      OctalSmall(c);
      forall i | 0 <= i < |c| ensures c[i] == d[i] {}
    }
  }

  // e may stand where a Boolean (or an integer) is wanted.  A case list is an integer,
  // and 0 and 1 are both.
  predicate Fits(e: Expr, wantbool: bool, tab: seq<Signal>)
  {
    match e
      case Var(name) => FindSymbol(tab, name).Some? && FindSymbol(tab, name).value.isbool == wantbool
      case Num(t) => wantbool ==> t == "0" || t == "1"
      case Case(arms) => arms.Arms? && !wantbool
      case _ => wantbool
  }

  // The operands of & and | that are printed are Boolean.
  predicate BoolOperands(e: Expr, tab: seq<Signal>)
  {
    match e
      case Var(_) => true
      case Num(_) => true
      case Not(a) => BoolOperands(a, tab)
      case And(a, b) => BoolOperands(a, tab) && BoolOperands(b, tab) && Fits(a, true, tab) && Fits(b, true, tab)
      case Or(a, b) => BoolOperands(a, tab) && BoolOperands(b, tab) && Fits(a, true, tab) && Fits(b, true, tab)
      case Comp(_, a, b) => BoolOperands(a, tab) && BoolOperands(b, tab)
      case In(a, es) => BoolOperands(a, tab) && SetBoolOperands(es, tab)
      case Case(arms) => ArmBoolOperands(arms, tab)
  }

  predicate SetBoolOperands(es: Exprs, tab: seq<Signal>)
  {
    es.Exprs? ==> BoolOperands(es.head, tab) && SetBoolOperands(es.tail, tab)
  }

  predicate ArmBoolOperands(arms: Arms, tab: seq<Signal>)
  {
    arms.Arms? ==>
      BoolOperands(arms.value, tab) &&
        (IsOne(arms.cond) || (BoolOperands(arms.cond, tab) && ArmBoolOperands(arms.rest, tab)))
  }

  lemma {:induction false} SignalTruth(tab: seq<Signal>, name: string, env: Env)
    requires TruthSignals(tab, env) && FindSymbol(tab, name).Some? && FindSymbol(tab, name).value.isbool
    ensures SignalValue(name, tab, env) == 0 || SignalValue(name, tab, env) == 1
  {
    if tab[0].name != name { SignalTruth(tab[1..], name, env); }
  }

  predicate IsTruth(v: int) { v == 0 || v == 1 }

  // An expression of Boolean type has a truth value.
  lemma BooleanValue(e: Expr, tab: seq<Signal>, env: Env)
    requires TruthSignals(tab, env) && Fits(e, true, tab) && env.numeral("0") == 0 && env.numeral("1") == 1
    ensures IsTruth(Meaning(e, tab, env))
  {
    match e
      case Var(name) => SignalTruth(tab, name, env);
      case _ =>
  }

  // What text that was emitted for e without errors means.
  ghost predicate Means(e: Expr, tab: seq<Signal>, env: Env)
  {
    CEval(Trans(e, tab), env) == Some(Meaning(e, tab, env))
  }

  lemma {:induction false} TransMeans(e: Expr, ok: string -> bool, tab: seq<Signal>, env: Env)
    requires Filled(e) && EveryNumeral(e, ok) && ReadsC(env) && TruthSignals(tab, env) &&
      forall t | ok(t) :: CValue(t).Some?
    requires BoolOperands(e, tab) && Text(e, tab).Some?
    ensures Means(e, tab, env)
    decreases e, 1
  {
    hide CValue, BitAnd, BitOr, Compare, Join, Binary, Truth, Means, TruthSignals, ReadsC;
    PartsText(e, tab);
    match e
      case Var(_) => LeafMeans(e, ok, tab, env);
      case Num(_) => LeafMeans(e, ok, tab, env);
      case Not(a) =>
        TransMeans(a, ok, tab, env);
        NotMeans(a, tab, env);
      case And(a, b) =>
        TransMeans(a, ok, tab, env);
        TransMeans(b, ok, tab, env);
        PairMeans(e, a, b, tab, env);
      case Or(a, b) =>
        TransMeans(a, ok, tab, env);
        TransMeans(b, ok, tab, env);
        PairMeans(e, a, b, tab, env);
      case Comp(_, a, b) =>
        TransMeans(a, ok, tab, env);
        TransMeans(b, ok, tab, env);
        PairMeans(e, a, b, tab, env);
      case In(a, es) =>
        TransMeans(a, ok, tab, env);
        TransMeans(es.head, ok, tab, env);
        FirstMeans(a, es.head, tab, env);
        SetMeans(CBin(Op("=="), Trans(a, tab), Trans(es.head, tab)), Meaning(a, tab, env) == Meaning(es.head, tab, env),
                 Text(a, tab), Trans(a, tab), Meaning(a, tab, env), es.tail, ok, tab, env);
        SetMeaning(a, es, tab, env);
      case Case(arms) =>
        ArmsMean(arms, ok, tab, env);
        CaseMeans(arms, tab, env);
  }

  // The parts of an expression that has a text have one.
  lemma PartsText(e: Expr, tab: seq<Signal>)
    requires Text(e, tab).Some?
    ensures match e
      case Not(a) => Text(a, tab).Some?
      case And(a, b) => Text(a, tab).Some? && Text(b, tab).Some?
      case Or(a, b) => Text(a, tab).Some? && Text(b, tab).Some?
      case Comp(_, a, b) => Text(a, tab).Some? && Text(b, tab).Some?
      case In(a, es) => SetText(Text(a, tab), es, tab).Some?
        && (es.Exprs? ==> Text(a, tab).Some? && Text(es.head, tab).Some? && SetText(Text(a, tab), es.tail, tab).Some?)
      case Case(arms) => arms.Arms? && ArmsText(arms, tab).Some?
      case _ => true
  {
    match e
      case Not(a) => Joined2(Just(Bang), Text(a, tab));
      case And(a, b) => Joined5(Just(LP), Text(a, tab), Just(Amp), Text(b, tab), Just(RP));
      case Or(a, b) => Joined5(Just(LP), Text(a, tab), Just(Bar), Text(b, tab), Just(RP));
      case Comp(op, a, b) => Joined5(Just(LP), Text(a, tab), Just(Op(op)), Text(b, tab), Just(RP));
      case In(a, es) =>
        Joined3(Just(LP), SetText(Text(a, tab), es, tab), Just(RP));
        if es.Exprs? { SetTextParts(Text(a, tab), es, tab); }
      case Case(arms) => Joined3(Just(LP), ArmsText(arms, tab), Just(RP));
      case _ =>
  }

  lemma LeafMeans(e: Expr, ok: string -> bool, tab: seq<Signal>, env: Env)
    requires EveryNumeral(e, ok) && ReadsC(env) && Text(e, tab).Some? && (e.Var? || e.Num?) &&
      forall t | ok(t) :: CValue(t).Some?
    ensures Means(e, tab, env)
  {
  }

  lemma NotMeans(a: Expr, tab: seq<Signal>, env: Env)
    requires Means(a, tab, env)
    ensures Means(Not(a), tab, env)
  {
  }

  lemma PairMeans(e: Expr, a: Expr, b: Expr, tab: seq<Signal>, env: Env)
    requires e == And(a, b) || e == Or(a, b) || (e.Comp? && e == Comp(e.op, a, b))
    requires TruthSignals(tab, env) && ReadsC(env) && BoolOperands(e, tab) && Means(a, tab, env) && Means(b, tab, env)
    ensures Means(e, tab, env)
  {
    hide BitAnd, BitOr, Compare, CheckArg, TruthSignals, Decimal, CValue, FindSymbol, ReadsC;
    BitNumerals(env);
    if !e.Comp? { BooleanPair(a, b, tab, env); }
  }

  lemma FirstMeans(a: Expr, h: Expr, tab: seq<Signal>, env: Env)
    requires Means(a, tab, env) && Means(h, tab, env)
    ensures CEval(Trans(a, tab), env) == Some(Meaning(a, tab, env))
    ensures CEval(CBin(Op("=="), Trans(a, tab), Trans(h, tab)), env) ==
      Some(Truth(Meaning(a, tab, env) == Meaning(h, tab, env)))
  {
  }

  lemma SetMeaning(a: Expr, es: Exprs, tab: seq<Signal>, env: Env)
    requires es.Exprs?
    requires CEval(TransSet(CBin(Op("=="), Trans(a, tab), Trans(es.head, tab)), Trans(a, tab), es.tail, tab), env) ==
      Some(Truth(Meaning(a, tab, env) == Meaning(es.head, tab, env) || Member(Meaning(a, tab, env), es.tail, tab, env)))
    ensures Means(In(a, es), tab, env)
  {
  }

  lemma CaseMeans(arms: Arms, tab: seq<Signal>, env: Env)
    requires CEval(TransArms(arms, tab), env) == Some(FirstTrue(arms, tab, env))
    ensures Means(Case(arms), tab, env)
  {
  }

  lemma BitNumerals(env: Env)
    ensures CValue("0") == Some(0) && CValue("1") == Some(1)
    ensures ReadsC(env) ==> env.numeral("0") == 0 && env.numeral("1") == 1
  {
    assert DigitsValue("", 10) == 0;
  }

  lemma BooleanPair(a: Expr, b: Expr, tab: seq<Signal>, env: Env)
    requires TruthSignals(tab, env) && Fits(a, true, tab) && Fits(b, true, tab) && env.numeral("0") == 0
    requires env.numeral("1") == 1
    ensures var x, y := Meaning(a, tab, env), Meaning(b, tab, env);
      BitAnd(x, y) == Truth(x != 0 && y != 0) && BitOr(x, y) == Truth(x != 0 || y != 0)
  {
    hide BitAnd, BitOr;
    BooleanValue(a, tab, env);
    BooleanValue(b, tab, env);
    BitsOfTruth(Meaning(a, tab, env) != 0, Meaning(b, tab, env) != 0);
  }

  // The alternatives so far compute found; the remaining ones look for v.
  lemma {:induction false} SetMeans(acc: CExpr, found: bool, x: Option<seq<Tok>>, a: CExpr, v: int, es: Exprs,
          ok: string -> bool, tab: seq<Signal>, env: Env)
    requires SetFilled(es) && EverySetNumeral(es, ok) && ReadsC(env) && TruthSignals(tab, env)
    requires SetBoolOperands(es, tab)
    requires forall t | ok(t) :: CValue(t).Some?
    requires SetText(x, es, tab).Some?
    requires CEval(acc, env) == Some(Truth(found)) && CEval(a, env) == Some(v)
    ensures CEval(TransSet(acc, a, es, tab), env) == Some(Truth(found || Member(v, es, tab, env)))
    decreases es, 0
  {
    if es.Exprs? {
      SetTextParts(x, es, tab);
      TransMeans(es.head, ok, tab, env);
      var one := CBin(Op("=="), a, Trans(es.head, tab));
      assert CEval(one, env) == Some(Truth(v == Meaning(es.head, tab, env)));
      SetMeans(CBin(OrOr, acc, one), found || v == Meaning(es.head, tab, env), x, a, v, es.tail, ok, tab, env);
    }
  }

  lemma {:induction false} ArmsMean(arms: Arms, ok: string -> bool, tab: seq<Signal>, env: Env)
    requires ArmsFilled(arms) && EveryArmNumeral(arms, ok) && ReadsC(env) && TruthSignals(tab, env)
    requires ArmBoolOperands(arms, tab)
    requires forall t | ok(t) :: CValue(t).Some?
    requires ArmsText(arms, tab).Some?
    ensures CEval(TransArms(arms, tab), env) == Some(FirstTrue(arms, tab, env))
    decreases arms, 0
  {
    if arms.NoArms? {
      BitNumerals(env);
    } else if IsOne(arms.cond) {
      TransMeans(arms.value, ok, tab, env);
    } else {
      Joined5(Text(arms.cond, tab), Just(Quest), Text(arms.value, tab), Just(Colon), ArmsText(arms.rest, tab));
      TransMeans(arms.cond, ok, tab, env);
      TransMeans(arms.value, ok, tab, env);
      ArmsMean(arms.rest, ok, tab, env);
    }
  }

  // ---- a numeral that is no C constant

  // Then the text is no C expression either.
  lemma {:induction false} Unreadable(e: Expr, ok: string -> bool, tab: seq<Signal>, env: Env)
    requires Filled(e) && !EveryNumeral(e, ok) && forall t | !ok(t) :: CValue(t).None?
    ensures CEval(Trans(e, tab), env).None?
    decreases e, 1
  {
    hide CValue;
    match e
      case Num(_) =>
      case Not(a) => Unreadable(a, ok, tab, env);
      case And(a, b) => if EveryNumeral(a, ok) { Unreadable(b, ok, tab, env); } else { Unreadable(a, ok, tab, env); }
      case Or(a, b) => if EveryNumeral(a, ok) { Unreadable(b, ok, tab, env); } else { Unreadable(a, ok, tab, env); }
      case Comp(_, a, b) =>
        if EveryNumeral(a, ok) { Unreadable(b, ok, tab, env); } else { Unreadable(a, ok, tab, env); }
      case In(a, es) =>
        if !EveryNumeral(a, ok) { Unreadable(a, ok, tab, env); }
        if !EveryNumeral(es.head, ok) { Unreadable(es.head, ok, tab, env); }
        UnreadableSet(CBin(Op("=="), Trans(a, tab), Trans(es.head, tab)), Trans(a, tab), es.tail, ok, tab, env);
      case Case(arms) => UnreadableArms(arms, ok, tab, env);
  }

  lemma {:induction false} UnreadableSet(acc: CExpr, a: CExpr, es: Exprs, ok: string -> bool, tab: seq<Signal>,
          env: Env)
    requires SetFilled(es) && (CEval(acc, env).None? || !EverySetNumeral(es, ok)) &&
      forall t | !ok(t) :: CValue(t).None?
    ensures CEval(TransSet(acc, a, es, tab), env).None?
    decreases es, 0
  {
    if es.Exprs? {
      var one := CBin(Op("=="), a, Trans(es.head, tab));
      if !EveryNumeral(es.head, ok) { Unreadable(es.head, ok, tab, env); }
      UnreadableSet(CBin(OrOr, acc, one), a, es.tail, ok, tab, env);
    }
  }

  lemma {:induction false} UnreadableArms(arms: Arms, ok: string -> bool, tab: seq<Signal>, env: Env)
    requires ArmsFilled(arms) && !EveryArmNumeral(arms, ok) && forall t | !ok(t) :: CValue(t).None?
    ensures CEval(TransArms(arms, tab), env).None?
    decreases arms, 0
  {
    if !EveryNumeral(arms.value, ok) {
      Unreadable(arms.value, ok, tab, env);
    } else if !EveryNumeral(arms.cond, ok) {
      Unreadable(arms.cond, ok, tab, env);
    } else {
      UnreadableArms(arms.rest, ok, tab, env);
    }
  }

  // ---- numerals that are read alike

  ghost predicate AlikeFor(env: Env, env': Env, ok: string -> bool)
  {
    && env.quote == env'.quote && ReadsOnes(env) && ReadsOnes(env')
    && forall t | ok(t) :: env.numeral(t) == env'.numeral(t)
  }

  lemma {:induction false} ReadAlike(e: Expr, ok: string -> bool, tab: seq<Signal>, env: Env, env': Env)
    requires EveryNumeral(e, ok) && AlikeFor(env, env', ok)
    ensures Meaning(e, tab, env) == Meaning(e, tab, env')
    decreases e, 1
  {
    match e
      case Var(_) =>
      case Num(_) =>
      case Not(a) => ReadAlike(a, ok, tab, env, env');
      case And(a, b) =>
        ReadAlike(a, ok, tab, env, env');
        ReadAlike(b, ok, tab, env, env');
      case Or(a, b) =>
        ReadAlike(a, ok, tab, env, env');
        ReadAlike(b, ok, tab, env, env');
      case Comp(_, a, b) =>
        ReadAlike(a, ok, tab, env, env');
        ReadAlike(b, ok, tab, env, env');
      case In(a, es) =>
        ReadAlike(a, ok, tab, env, env');
        SetReadAlike(Meaning(a, tab, env), es, ok, tab, env, env');
      case Case(arms) => ArmsReadAlike(arms, ok, tab, env, env');
  }

  lemma {:induction false} ArmsReadAlike(arms: Arms, ok: string -> bool, tab: seq<Signal>, env: Env, env': Env)
    requires EveryArmNumeral(arms, ok) && AlikeFor(env, env', ok)
    ensures FirstTrue(arms, tab, env) == FirstTrue(arms, tab, env')
    decreases arms, 0
  {
    if arms.Arms? {
      ReadAlike(arms.value, ok, tab, env, env');
      if IsOne(arms.cond) {
        assert env.numeral(arms.cond.text) == 1 == env'.numeral(arms.cond.text);
      } else {
        ReadAlike(arms.cond, ok, tab, env, env');
        ArmsReadAlike(arms.rest, ok, tab, env, env');
      }
    }
  }

  lemma {:induction false} SetReadAlike(v: int, es: Exprs, ok: string -> bool, tab: seq<Signal>, env: Env, env': Env)
    requires EverySetNumeral(es, ok) && AlikeFor(env, env', ok)
    ensures Member(v, es, tab, env) == Member(v, es, tab, env')
    decreases es, 0
  {
    if es.Exprs? {
      ReadAlike(es.head, ok, tab, env, env');
      SetReadAlike(v, es.tail, ok, tab, env, env');
    }
  }


  lemma {:induction false} EveryWeaker(e: Expr, ok: string -> bool, ok': string -> bool)
    requires EveryNumeral(e, ok) && forall t | ok(t) :: ok'(t)
    ensures EveryNumeral(e, ok')
    decreases e, 1
  {
    match e
      case Not(a) => EveryWeaker(a, ok, ok');
      case And(a, b) =>
        EveryWeaker(a, ok, ok');
        EveryWeaker(b, ok, ok');
      case Or(a, b) =>
        EveryWeaker(a, ok, ok');
        EveryWeaker(b, ok, ok');
      case Comp(_, a, b) =>
        EveryWeaker(a, ok, ok');
        EveryWeaker(b, ok, ok');
      case In(a, es) =>
        EveryWeaker(a, ok, ok');
        SetWeaker(es, ok, ok');
      case Case(arms) => ArmsWeaker(arms, ok, ok');
      case _ =>
  }

  lemma {:induction false} SetWeaker(es: Exprs, ok: string -> bool, ok': string -> bool)
    requires EverySetNumeral(es, ok) && forall t | ok(t) :: ok'(t)
    ensures EverySetNumeral(es, ok')
    decreases es, 0
  {
    if es.Exprs? {
      EveryWeaker(es.head, ok, ok');
      SetWeaker(es.tail, ok, ok');
    }
  }

  lemma {:induction false} ArmsWeaker(arms: Arms, ok: string -> bool, ok': string -> bool)
    requires EveryArmNumeral(arms, ok) && forall t | ok(t) :: ok'(t)
    ensures EveryArmNumeral(arms, ok')
    decreases arms, 0
  {
    if arms.Arms? {
      EveryWeaker(arms.value, ok, ok');
      if !IsOne(arms.cond) {
        EveryWeaker(arms.cond, ok, ok');
        ArmsWeaker(arms.rest, ok, ok');
      }
    }
  }

  // ---- the two readings

  // How HCL and how C read the text of an expression, given the values of the signals.
  function HclEnv(quote: string -> int): Env { Env(quote, t => Decimal(t)) }

  function CNumber(t: string): int
  {
    if Decimal(t) == 1 then 1 else if CValue(t).Some? then CValue(t).value else 0
  }

  function CEnv(quote: string -> int): Env { Env(quote, t => CNumber(t)) }

  lemma CReadsC(quote: string -> int)
    ensures ReadsC(CEnv(quote)) && ReadsOnes(HclEnv(quote))
  {
    forall t | CValue(t).Some? ensures CNumber(t) == CValue(t).value {
      if Decimal(t) == 1 { OneIsOne(t); }
    }
  }

  // Numerals that are ok make no difference.
  lemma NumeralsSame(e: Expr, tab: seq<Signal>, quote: string -> int)
    requires NumeralsOk(e)
    ensures Readable(e) && Meaning(e, tab, CEnv(quote)) == Meaning(e, tab, HclEnv(quote))
  {
    hide CValue, Decimal, NumeralOk, IsNum, Meaning, EveryNumeral;
    var ok := t => IsNum(t) && NumeralOk(t);
    CReadsC(quote);
    forall t | ok(t) ensures CValue(t).Some? && CNumber(t) == Decimal(t) {
      NumeralsAlike(t);
    }
    EveryWeaker(e, ok, t => CValue(t).Some?);
    ReadAlike(e, ok, tab, CEnv(quote), HclEnv(quote));
  }

  // ---- long numerals

  function Pow10(n: nat): int { if n == 0 then 1 else 10 * Pow10(n - 1) }

  lemma {:induction false} AtLeast(d: string)
    requires d != "" && d[0] != '0' && forall i | 0 <= i < |d| :: '0' <= d[i] <= '9'
    ensures DigitsValue(d, 10) >= Pow10(|d| - 1) > 0
  {
    if |d| > 1 {
      AtLeast(d[..|d|-1]);
    } else {
      assert DigitsValue(d[..0], 10) == 0;
    }
  }

  lemma {:induction false} PowGrows(n: nat)
    requires n >= 19
    ensures Pow10(n) >= LLONG_LIMIT
    decreases n
  {
    if n == 19 {
      assert Pow10(4) == 10000;
      assert Pow10(8) == 10000 * Pow10(4);
      assert Pow10(12) == 10000 * Pow10(8);
      assert Pow10(16) == 10000 * Pow10(12);
      assert Pow10(19) == 1000 * Pow10(16);
    } else {
      PowGrows(n - 1);
    }
  }

  // No C type has to hold a numeral of twenty digits, but the lexer takes it.
  lemma LongNumeral(text: string)
    requires IsNum(text) && |Digits(text)| >= 20 && Digits(text)[0] != '0'
    ensures CValue(text).None? && !NumeralOk(text)
  {
    AtLeast(Digits(text));
    PowGrows(|Digits(text)| - 1);
  }
}
