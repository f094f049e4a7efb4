// What the C text of an HCL expression means, for every expression hcl2c accepts.
module HclMeaning {
  import opened Common
  import opened Hcl
  import opened CText
  import opened HclCorrect
  import opened HclWalk
  import opened HclTypes

  // What hcl2c prints for e is one C expression, and it has the value of e.
  ghost predicate Keeps(e: Expr, tab: seq<Signal>, quote: string -> int)
  {
    var g := Gen(Build(e, tab).node, tab);
    g.Some? && var r := ParseAt(COND, g.value);
               r.Some? && r.value.1 == [] && CEval(r.value.0, CEnv(quote)) == Some(Meaning(e, tab, HclEnv(quote)))
  }

  // The translation of every accepted expression: the text is that of its walk; unless
  // the walk holds a set without elements, it parses by the precedence rules of C as one
  // expression, which has a value if all numerals in it are C constants: that of the
  // walk, with numerals as C reads them.  So the meaning of e is kept exactly if the walk,
  // read so, has the same.
  lemma TranslationKeepsMeaning(e: Expr, isbool: bool, tab: seq<Signal>, quote: string -> int)
    requires Accepts(e, isbool, tab) && TruthSignals(tab, CEnv(quote))
    ensures Walked(e).Some?
    ensures var w := Walked(e).value; var r := ParseAt(COND, Gen(Build(e, tab).node, tab).value);
      if Filled(w) then r.Some? && r.value.1 == [] && CEval(r.value.0, CEnv(quote)) == ValueInC(w, tab, quote)
      else r.None?
    ensures Keeps(e, tab, quote) <==>
      Filled(Walked(e).value) && ValueInC(Walked(e).value, tab, quote) == Some(Meaning(e, tab, HclEnv(quote)))
  {
    hide ParseUnary, ParseAt, Reads, CEval, Meaning, Filled, Readable, Walked, Typed, Declared, Text, TruthSignals;
    AcceptedIff(e, isbool, tab);
    GenIsWalked(e, tab);
    var w := Walked(e).value;
    WalkedOperands(e, tab);
    TextIfDeclared(w, tab);
    WalkMeans(w, tab, quote);
  }

  function ValueInC(w: Expr, tab: seq<Signal>, quote: string -> int): Option<int>
  {
    if Readable(w) then Some(Meaning(w, tab, CEnv(quote))) else None
  }

  lemma WalkMeans(w: Expr, tab: seq<Signal>, quote: string -> int)
    requires Text(w, tab).Some? && BoolOperands(w, tab) && TruthSignals(tab, CEnv(quote))
    ensures var r := ParseAt(COND, Text(w, tab).value);
      if Filled(w) then r.Some? && r.value.1 == [] && CEval(r.value.0, CEnv(quote)) == ValueInC(w, tab, quote)
      else r.None?
  {
    hide ParseUnary, ParseAt, Reads, CValue;
    var x := Text(w, tab).value;
    assert x + [] == x;
    if Filled(w) {
      TextReads(w, tab, []);
      CondReads(x, Trans(w, tab), []);
      CReadsC(quote);
      var ok := t => CValue(t).Some?;
      if Readable(w) { TransMeans(w, ok, tab, CEnv(quote)); } else { Unreadable(w, ok, tab, CEnv(quote)); }
    } else {
      TextFails(w, tab, []);
      ClimbFails(COND, x);
    }
  }

  // Acceptance and meaning together, for typed expressions.
  lemma WellTypedTranslates(e: Expr, isbool: bool, tab: seq<Signal>, quote: string -> int)
    requires Typed(e, tab) && Fits(e, isbool, tab) && TruthSignals(tab, CEnv(quote))
    ensures Accepts(e, isbool, tab) <==> Walked(e).Some? && Declared(Walked(e).value, tab)
    ensures Keeps(e, tab, quote) <==>
      (Walked(e).Some? && Declared(Walked(e).value, tab) && Filled(Walked(e).value) &&
       ValueInC(Walked(e).value, tab, quote) == Some(Meaning(e, tab, HclEnv(quote))))
  {
    hide ParseAt, CEval, Meaning, Filled, Readable, Typed, Walked, Fits, Declared, TruthSignals, ValueInC;
    AcceptedIff(e, isbool, tab);
    GenIsWalked(e, tab);
    if Accepts(e, isbool, tab) {
      TranslationKeepsMeaning(e, isbool, tab, quote);
    } else if Walked(e).Some? {
      TextIfDeclared(Walked(e).value, tab);
    }
  }

  // A well-typed comparison with a numeral of twenty digits is accepted, and its text is
  // no C expression.
  lemma LongNumeralFails(text: string, quote: string -> int)
    requires IsNum(text) && |Digits(text)| >= 20 && Digits(text)[0] != '0' && IsTruth(quote("A"))
    ensures var e := Comp("==", Var("x"), Num(text)); Accepts(e, true, SIGNALS) && !Keeps(e, SIGNALS, quote)
  {
    hide CValue, Keeps, Accepts, TruthSignals, Walked;
    var e := Comp("==", Var("x"), Num(text));
    ComparisonAccepted(text);
    LongNumeral(text);
    var ok := t => CValue(t).Some?;
    assert !EveryNumeral(Num(text), ok);
    assert !EveryNumeral(e, ok);
    SampleSignals(quote);
    TranslationKeepsMeaning(e, true, SIGNALS, quote);
  }

  lemma ComparisonAccepted(text: string)
    ensures var e := Comp("==", Var("x"), Num(text)); Accepts(e, true, SIGNALS) && Walked(e) == Some(e)
  {
    hide Accepts;
    var x, n := Var("x"), Num(text);
    LookUps();
    assert Walked(x) == Some(x) && Walked(n) == Some(n);
    assert Typed(x, SIGNALS) && Typed(n, SIGNALS) && Fits(x, false, SIGNALS) && Fits(n, false, SIGNALS);
    assert Declared(x, SIGNALS) && Declared(n, SIGNALS);
    AcceptedIff(Comp("==", x, n), true, SIGNALS);
  }

  // -------------------------------------------------------------- sets that are kept

  // A set element that is a case list shares its chain of arms with the chain of
  // elements; with a single arm, and nothing after it to run into, it comes out as
  // written.
  predicate ElementOk(e: Expr, last: bool)
  {
    e.Case? ==> e.arms.Arms? && e.arms.rest.NoArms? && (last || IsOne(e.arms.cond))
  }

  // Every set inside e has such elements.
  predicate SetsOk(e: Expr)
  {
    match e
      case Var(_) => true
      case Num(_) => true
      case Not(a) => SetsOk(a)
      case And(a, b) => SetsOk(a) && SetsOk(b)
      case Or(a, b) => SetsOk(a) && SetsOk(b)
      case Comp(_, a, b) => SetsOk(a) && SetsOk(b)
      case In(a, es) => es.Exprs? && SetsOk(a) && ElementsOk(es)
      case Case(arms) => ArmsOk(arms)
  }

  predicate ElementsOk(es: Exprs)
  {
    es.Exprs? ==> SetsOk(es.head) && ElementOk(es.head, es.tail.NoExprs?) && ElementsOk(es.tail)
  }

  predicate ArmsOk(arms: Arms)
  {
    arms.Arms? ==> SetsOk(arms.cond) && SetsOk(arms.value) && ArmsOk(arms.rest)
  }

  // Such an expression is printed as it is.
  lemma {:induction false} PrintedAsWritten(e: Expr)
    requires SetsOk(e)
    ensures Walked(e).Some? ==> Walked(e).value == e
    ensures Filled(e)
    decreases e, 1
  {
    match e
      case Var(_) =>
      case Num(_) =>
      case Not(a) => PrintedAsWritten(a);
      case And(a, b) =>
        PrintedAsWritten(a);
        PrintedAsWritten(b);
      case Or(a, b) =>
        PrintedAsWritten(a);
        PrintedAsWritten(b);
      case Comp(_, a, b) =>
        PrintedAsWritten(a);
        PrintedAsWritten(b);
      case In(a, es) =>
        PrintedAsWritten(a);
        SetAsWritten(es);
      case Case(arms) => ArmsAsWritten(arms);
  }

  lemma {:induction false} SetAsWritten(es: Exprs)
    requires ElementsOk(es)
    ensures WalkedSet(NoArms, es).Some? ==> WalkedSet(NoArms, es).value == es
    ensures SetFilled(es)
    decreases es, 0
  {
    hide Walked;
    if es.Exprs? {
      PrintedAsWritten(es.head);
      SetAsWritten(es.tail);
      if es.head.Case? { OneArm(es); }
    }
  }

  // A case list of one arm as an element.
  lemma OneArm(es: Exprs)
    requires es.Exprs? && es.head.Case? && ElementOk(es.head, es.tail.NoExprs?)
    requires Walked(es.head).Some? ==> Walked(es.head).value == es.head
    ensures var r := Run(es.head.arms, es.tail); r.Some? ==> r.value == es.head.arms
  {
    hide Walked;
    var arms := es.head.arms;
    CaseRuns(arms);
    assert Run(arms, es.tail) == Arm(arms.cond, Walked(arms.cond), Walked(arms.value), arms.rest,
      Run(arms.rest, es.tail));
    assert Run(arms, NoExprs) == Arm(arms.cond, Walked(arms.cond), Walked(arms.value), arms.rest,
      Run(arms.rest, NoExprs));
  }

  lemma CaseRuns(arms: Arms)
    requires arms.Arms?
    ensures Walked(Case(arms)) == CaseOf(Run(arms, NoExprs))
  {
  }

  lemma {:induction false} ArmsAsWritten(arms: Arms)
    requires ArmsOk(arms)
    ensures Run(arms, NoExprs).Some? ==> Run(arms, NoExprs).value == arms
    ensures ArmsFilled(arms)
    decreases arms, 0
  {
    hide Walked;
    if arms.Arms? {
      PrintedAsWritten(arms.cond);
      PrintedAsWritten(arms.value);
      ArmsAsWritten(arms.rest);
    }
  }

  // Every accepted expression with such sets keeps its meaning.
  lemma PlainSetsKeepMeaning(e: Expr, isbool: bool, tab: seq<Signal>, quote: string -> int)
    requires Accepts(e, isbool, tab) && TruthSignals(tab, CEnv(quote)) && SetsOk(e) && NumeralsOk(e)
    ensures Keeps(e, tab, quote)
  {
    hide Keeps, Accepts, Filled, Walked, Meaning, NumeralsOk, Readable;
    PrintedAsWritten(e);
    NumeralsSame(e, tab, quote);
    TranslationKeepsMeaning(e, isbool, tab, quote);
  }

  // -------------------------------------------------- a set with a case list in it

  // The case lists that start at each arm.
  function Suffixes(arms: Arms): Exprs
  {
    if arms.NoArms? then NoExprs else Exprs(Case(arms), Suffixes(arms.rest))
  }

  lemma {:induction false} SuffixesWalked(arms: Arms)
    requires ArmsOk(arms) && WalkedSet(arms, NoExprs).Some?
    ensures WalkedSet(arms, NoExprs).value == Suffixes(arms)
  {
    hide Run;
    if arms.Arms? {
      ArmsAsWritten(arms);
      SuffixesWalked(arms.rest);
    }
  }

  // The text of a set whose only element is a case list is that of the set of all its
  // suffixes: the loop over the elements also walks the arms.
  lemma SetOfCaseWalked(a: Expr, arms: Arms)
    requires SetsOk(a) && ArmsOk(arms) && arms.Arms?
    ensures var w := Walked(In(a, Exprs(Case(arms), NoExprs))); w.Some? ==> w.value == In(a, Suffixes(arms))
    ensures Filled(In(a, Suffixes(arms)))
  {
    hide Run;
    PrintedAsWritten(a);
    assert WalkedSet(NoArms, Exprs(Case(arms), NoExprs)) == WalkedSet(arms, NoExprs);
    if WalkedSet(arms, NoExprs).Some? { SuffixesWalked(arms); }
    SuffixesFilled(arms);
  }

  lemma {:induction false} SuffixesFilled(arms: Arms)
    requires ArmsOk(arms)
    ensures SetFilled(Suffixes(arms))
  {
    if arms.Arms? {
      PrintedAsWritten(Case(arms));
      SuffixesFilled(arms.rest);
    }
  }

  // A test for membership in a set whose only element is a case list keeps its meaning
  // exactly if the element is the value of the whole list, or of none of its proper
  // suffixes.
  lemma SetOfCaseKept(a: Expr, arms: Arms, tab: seq<Signal>, quote: string -> int)
    requires SetsOk(a) && ArmsOk(arms) && arms.Arms? && TruthSignals(tab, CEnv(quote))
    requires Accepts(In(a, Exprs(Case(arms), NoExprs)), true, tab) && NumeralsOk(In(a, Suffixes(arms)))
    ensures var env := HclEnv(quote);
      Keeps(In(a, Exprs(Case(arms), NoExprs)), tab, quote) <==>
        (Meaning(a, tab, env) == FirstTrue(arms, tab, env) ||
          !Member(Meaning(a, tab, env), Suffixes(arms.rest), tab, env))
  {
    hide Keeps, Accepts, Walked, NumeralsOk, Readable, Filled, FirstTrue, SetsOk, ArmsOk;
    var e := In(a, Exprs(Case(arms), NoExprs));
    SetOfCaseWalked(a, arms);
    AcceptedIff(e, true, tab);
    TranslationKeepsMeaning(e, true, tab, quote);
    NumeralsSame(In(a, Suffixes(arms)), tab, quote);
    MembersOfCase(a, arms, tab, HclEnv(quote));
  }

  lemma MembersOfCase(a: Expr, arms: Arms, tab: seq<Signal>, env: Env)
    requires arms.Arms?
    ensures var v := Meaning(a, tab, env);
      && Meaning(In(a, Exprs(Case(arms), NoExprs)), tab, env) == Truth(v == FirstTrue(arms, tab, env))
      && Meaning(In(a, Suffixes(arms)), tab, env) ==
           Truth(v == FirstTrue(arms, tab, env) || Member(v, Suffixes(arms.rest), tab, env))
  {
    var v, one := Meaning(a, tab, env), Exprs(Case(arms), NoExprs);
    assert !Member(v, NoExprs, tab, env);
    assert Meaning(Case(arms), tab, env) == FirstTrue(arms, tab, env);
    assert Member(v, one, tab, env) <==> v == Meaning(one.head, tab, env) || Member(v, one.tail, tab, env);
  }

  // The same for any set, in terms of the elements that its walk meets.
  lemma SetKept(a: Expr, es: Exprs, tab: seq<Signal>, quote: string -> int)
    requires SetsOk(a) && TruthSignals(tab, CEnv(quote)) && Accepts(In(a, es), true, tab)
    requires Walked(In(a, es)).Some? ==> NumeralsOk(Walked(In(a, es)).value)
    ensures WalkedSet(NoArms, es).Some?
    ensures var s, env := WalkedSet(NoArms, es).value, HclEnv(quote);
      var v := Meaning(a, tab, env);
      Keeps(In(a, es), tab, quote) <==>
        s.Exprs? && SetFilled(s) && (Member(v, s, tab, env) <==> Member(v, es, tab, env))
  {
    hide Keeps, Accepts, NumeralsOk, Readable, WalkedSet;
    TranslationKeepsMeaning(In(a, es), true, tab, quote);
    NumeralsSame(Walked(In(a, es)).value, tab, quote);
    PrintedAsWritten(a);
  }

  // ------------------------------------------------------- a case list before a leaf

  // The last arm has the condition 1.
  predicate LastIsOne(arms: Arms)
  {
    arms.Arms? && if arms.rest.NoArms? then IsOne(arms.cond) else LastIsOne(arms.rest)
  }

  // gen_expr gets through each condition and each value.
  predicate ArmsWalk(arms: Arms)
  {
    arms.Arms? ==> Walked(arms.cond).Some? && Walked(arms.value).Some? && ArmsWalk(arms.rest)
  }

  predicate Leaf(e: Expr) { e.Var? || e.Num? || e.Not? }

  // The loop over the arms runs into whatever element comes next, and such an element
  // has not both arguments.
  lemma {:induction false} RunsIntoLeaf(arms: Arms, h: Expr, es: Exprs)
    requires Leaf(h) && arms.Arms?
    ensures WalkedSet(arms, Exprs(h, es)).Some? ==> LastIsOne(arms)
    ensures LastIsOne(arms) && ArmsWalk(arms) ==>
      Run(arms, Exprs(h, es)).Some? && (WalkedSet(arms, Exprs(h, es)).Some? <==> WalkedSet(NoArms, Exprs(h, es)).Some?)
  {
    hide Walked;
    var more := Exprs(h, es);
    assert Run(arms, more) == Arm(arms.cond, Walked(arms.cond), Walked(arms.value), arms.rest, Run(arms.rest, more));
    assert WalkedSet(arms, more) == Prepend(CaseOf(Run(arms, more)), WalkedSet(arms.rest, more));
    if arms.rest.Arms? {
      RunsIntoLeaf(arms.rest, h, es);
    } else {
      assert Run(NoArms, more) == None;
    }
  }

  // A set with a case list before a signal, a numeral or a negation: gen_expr follows a
  // null pointer, whatever comes after, unless the last arm has the condition 1.
  lemma CaseThenElementFails(a: Expr, arms: Arms, h: Expr, es: Exprs, tab: seq<Signal>)
    requires arms.Arms? && Leaf(h) && !LastIsOne(arms)
    ensures Gen(Build(In(a, Exprs(Case(arms), Exprs(h, es))), tab).node, tab) == None
  {
    hide Gen, Build, Run;
    GenIsWalked(In(a, Exprs(Case(arms), Exprs(h, es))), tab);
    RunsIntoLeaf(arms, h, es);
    assert WalkedSet(NoArms, Exprs(Case(arms), Exprs(h, es))) == WalkedSet(arms, Exprs(h, es));
  }

  // With nothing after the leaf that condition is exact.
  lemma CaseThenElement(a: Expr, arms: Arms, h: Expr)
    requires arms.Arms? && Leaf(h) && Walked(a).Some? && ArmsWalk(arms) && Walked(h).Some?
    ensures Walked(In(a, Exprs(Case(arms), Exprs(h, NoExprs)))).Some? <==> LastIsOne(arms)
  {
    hide Run;
    RunsIntoLeaf(arms, h, NoExprs);
    assert WalkedSet(NoArms, Exprs(Case(arms), Exprs(h, NoExprs))) == WalkedSet(arms, Exprs(h, NoExprs));
    assert WalkedSet(NoArms, Exprs(h, NoExprs)) == Prepend(Walked(h), Some(NoExprs));
  }

  // --------------------------------------------------- where the conditions matter

  const SIGNALS: seq<Signal> := [Signal("x", "X", false), Signal("a", "A", true)]

  lemma LookUps()
    ensures FindSymbol(SIGNALS, "x") == Some(SIGNALS[0]) && FindSymbol(SIGNALS, "a") == Some(SIGNALS[1])
  {
    assert SIGNALS[1..][0] == SIGNALS[1];
  }

  lemma Ones()
    ensures Decimal("1") == 1 && Decimal("2") == 2 && Decimal("0") == 0
  {
    assert DigitsValue("", 10) == 0;
  }

  function Sample(): Arms { Arms(Var("a"), Num("1"), Arms(Num("1"), Num("2"), NoArms)) }

  function SampleTest(): Expr { In(Var("x"), Exprs(Case(Sample()), NoExprs)) }

  lemma SampleParts()
    ensures var arms := Sample();
      && Suffixes(arms) == Exprs(Case(arms), Exprs(Case(arms.rest), NoExprs)) && ArmsOk(arms)
      && IsOne(arms.rest.cond) && !IsOne(arms.cond)
    ensures NumeralsOk(In(Var("x"), Suffixes(Sample())))
    ensures Typed(SampleTest(), SIGNALS) && Declared(In(Var("x"), Suffixes(Sample())), SIGNALS)
  {
    LookUps();
    Ones();
    var arms := Sample();
    assert TypedArms(arms.rest, SIGNALS) && TypedArms(arms, SIGNALS);
    assert ArmsDeclared(arms.rest, SIGNALS) && ArmsDeclared(arms, SIGNALS);
    assert AllDeclared(Exprs(Case(arms.rest), NoExprs), SIGNALS);
  }

  lemma SampleWalked()
    ensures Walked(SampleTest()) == Some(In(Var("x"), Suffixes(Sample())))
  {
    SampleParts();
    var arms := Sample();
    assert Run(arms.rest, NoExprs) == Some(arms.rest);
    assert Run(arms, NoExprs) == Some(arms);
    assert WalkedSet(arms.rest, NoExprs) == Some(Exprs(Case(arms.rest), NoExprs));
    assert WalkedSet(arms, NoExprs) == Some(Suffixes(arms));
    assert WalkedSet(NoArms, Exprs(Case(arms), NoExprs)) == WalkedSet(arms, NoExprs);
  }

  lemma SampleAccepted()
    ensures Accepts(SampleTest(), true, SIGNALS) && ArmsOk(Sample())
    ensures NumeralsOk(In(Var("x"), Suffixes(Sample())))
  {
    hide Walked, Accepts, Typed, Declared, NumeralsOk, Suffixes;
    SampleParts();
    SampleWalked();
    AcceptedIff(SampleTest(), true, SIGNALS);
  }

  // x in { [ a : 1; 1 : 2; ] } is accepted, but with x = 2 and a true its text is true
  // and the expression false.
  lemma SetOfCasesDiffers(quote: string -> int)
    requires quote("X") == 2 && quote("A") == 1
    ensures var e := SampleTest();
      && Lexical(e) && TruthSignals(SIGNALS, CEnv(quote)) && Accepts(e, true, SIGNALS) && !SetsOk(e)
      && var r := ParseAt(COND, Gen(Build(e, SIGNALS).node, SIGNALS).value);
         r.Some? && r.value.1 == [] && CEval(r.value.0, CEnv(quote)) == Some(1) &&
           Meaning(e, SIGNALS, HclEnv(quote)) == 0
  {
    hide ParseAt, CEval, Gen, Build, Accepts, Walked, Filled, Readable, NumeralsOk, CEnv;
    assert TruthSignals(SIGNALS, CEnv(quote)) by { SampleSignals(quote); }
    SampleAccepted();
    AcceptedIff(SampleTest(), true, SIGNALS);
    SetOfCaseWalked(Var("x"), Sample());
    TranslationKeepsMeaning(SampleTest(), true, SIGNALS, quote);
    NumeralsSame(In(Var("x"), Suffixes(Sample())), SIGNALS, quote);
    SampleMeanings(HclEnv(quote));
  }

  lemma SampleSignals(quote: string -> int)
    requires IsTruth(quote("A"))
    ensures TruthSignals(SIGNALS, CEnv(quote))
  {
  }

  lemma SampleMeanings(env: Env)
    requires env.quote("X") == 2 && env.quote("A") == 1 && env.numeral("1") == 1 && env.numeral("2") == 2
    ensures Meaning(SampleTest(), SIGNALS, env) == 0
    ensures Meaning(In(Var("x"), Suffixes(Sample())), SIGNALS, env) == 1
  {
    LookUps();
    var arms := Sample();
    assert FirstTrue(arms.rest, SIGNALS, env) == Meaning(Num("2"), SIGNALS, env) == 2;
    assert FirstTrue(arms, SIGNALS, env) == Meaning(Num("1"), SIGNALS, env) == 1;
    assert Meaning(Case(arms), SIGNALS, env) == 1 && Meaning(Case(arms.rest), SIGNALS, env) == 2;
    assert Suffixes(arms.rest) == Exprs(Case(arms.rest), NoExprs);
    assert Member(2, Suffixes(arms.rest), SIGNALS, env);
    assert !Member(2, NoExprs, SIGNALS, env);
  }
}
