// The C expressions that hcl2c emits, parsed with the precedences of C and evaluated.
module CText {
  import opened Common
  import W = Words
  import opened Hcl

  datatype CExpr =
    | CQuote(q: string)
    | CNum(text: string)
    | CNot(e: CExpr)
    | CBin(op: Tok, a: CExpr, b: CExpr)
    | CCond(c: CExpr, t: CExpr, f: CExpr)

  // ------------------------------------------------------------------------ parser

  const COND := 0
  const UNARY := 6

  // The binding level of a binary operator, ISO C section 6.5: logical or, inclusive
  // or, and, equality, relational; a tighter level has a larger number.
  function Level(t: Tok): nat
  {
    match t
      case OrOr => 1
      case Bar => 2
      case Amp => 3
      case Op(s) => if s == "==" || s == "!=" then 4 else 5
      case _ => 0
  }

  type Parse = Option<(CExpr, seq<Tok>)>

  // An expression of the given level at the front of toks, and what is left.
  function ParseAt(level: nat, toks: seq<Tok>): (r: Parse)
    requires level <= UNARY
    ensures r.Some? ==> |r.value.1| < |toks|
    decreases |toks|, 1 + UNARY - level, 1
  {
    if level == UNARY then ParseUnary(toks)
    else if level == COND then
      var c := ParseAt(1, toks);
      if c.None? || c.value.1 == [] || c.value.1[0] != Quest then c
      else
        var t := ParseAt(COND, c.value.1[1..]);
        if t.None? || t.value.1 == [] || t.value.1[0] != Colon then None
        else
          var f := ParseAt(COND, t.value.1[1..]);
          if f.None? then None else Some((CCond(c.value.0, t.value.0, f.value.0), f.value.1))
    else
      var a := ParseAt(level + 1, toks);
      if a.None? then None else ParseRest(level, a.value.0, a.value.1)
  }

  function ParseUnary(toks: seq<Tok>): (r: Parse)
    ensures r.Some? ==> |r.value.1| < |toks|
    decreases |toks|, 0, 0
  {
    if toks == [] then None
    else
      match toks[0]
        case Quote(q) => Some((CQuote(q), toks[1..]))
        case Lit(t) => Some((CNum(t), toks[1..]))
        case Bang =>
          var a := ParseUnary(toks[1..]);
          if a.None? then None else Some((CNot(a.value.0), a.value.1))
        case LP =>
          var a := ParseAt(COND, toks[1..]);
          if a.None? || a.value.1 == [] || a.value.1[0] != RP then None else Some((a.value.0, a.value.1[1..]))
        case _ => None
  }

  // Left-associative operators of one level after the operand a.
  function ParseRest(level: nat, a: CExpr, toks: seq<Tok>): (r: Parse)
    requires 0 < level < UNARY
    ensures r.Some? ==> |r.value.1| <= |toks|
    decreases |toks|, 1 + UNARY - level, 0
  {
    if toks == [] || Level(toks[0]) != level then Some((a, toks))
    else
      var b := ParseAt(level + 1, toks[1..]);
      if b.None? then None else ParseRest(level, CBin(toks[0], a, b.value.0), b.value.1)
  }

  // --------------------------------------------------------------------- evaluation

  // The range of long long.
  const LLONG_LIMIT := 0x8000_0000_0000_0000

  // A numeral as a C constant, ISO C section 6.4.4.1: a leading zero makes it octal, and
  // it has no value if it is no numeral, a digit is not octal or no signed type holds it.
  function CValue(text: string): Option<int>
  {
    var d := Digits(text);
    var octal := |d| > 1 && d[0] == '0';
    var v := DigitsValue(d, if octal then 8 else 10);
    if !IsNum(text) || v >= LLONG_LIMIT || (octal && exists i | 0 <= i < |d| :: d[i] > '7') then None
    else Some(if text != "" && text[0] == '-' then -v else v)
  }

  function BitAnd(x: int, y: int): int { W.Signed(W.And(W.Wrap(x), W.Wrap(y))) }

  function BitOr(x: int, y: int): int { W.Signed(W.Wrap(W.And(W.Wrap(x), W.Wrap(y)) + W.Xor(W.Wrap(x), W.Wrap(y)))) }

  function Binary(op: Tok, x: int, y: int): int
  {
    match op
      case Amp => BitAnd(x, y)
      case Bar => BitOr(x, y)
      case OrOr => Truth(x != 0 || y != 0)
      case Op(s) => Truth(Compare(s, x, y))
      case _ => 0
  }

  // The value of a C expression on 64-bit integers; None if it does not compile.
  function CEval(c: CExpr, env: Env): Option<int>
  {
    match c
      case CQuote(q) => Some(env.quote(q))
      case CNum(t) => CValue(t)
      case CNot(a) => var x := CEval(a, env); if x.None? then None else Some(Truth(x.value == 0))
      case CBin(op, a, b) =>
        var x, y := CEval(a, env), CEval(b, env);
        if x.None? || y.None? then None else Some(Binary(op, x.value, y.value))
      case CCond(a, t, f) =>
        var x, y, z := CEval(a, env), CEval(t, env), CEval(f, env);
        if x.None? || y.None? || z.None? then None else Some(if x.value != 0 then y.value else z.value)
  }

  // On truth values & and | are the Boolean connectives.
  lemma BitsOfTruth(p: bool, q: bool)
    ensures BitAnd(Truth(p), Truth(q)) == Truth(p && q) && BitOr(Truth(p), Truth(q)) == Truth(p || q)
  {
    hide W.And, W.Xor;
    AndOfTruth(Truth(p), Truth(q));
    XorOfTruth(Truth(p), Truth(q));
  }

  lemma AndOfTruth(x: W.word, y: W.word)
    requires 0 <= x <= 1 && 0 <= y <= 1
    ensures W.And(x, y) == if x == 1 && y == 1 then 1 else 0
  {
    hide W.And;
    W.AndSelf(x);
    W.AndZero(x);
    W.AndZero(y);
  }

  lemma XorOfTruth(x: W.word, y: W.word)
    requires 0 <= x <= 1 && 0 <= y <= 1
    ensures W.Xor(x, y) == if x == y then 0 else 1
  {
    hide W.Xor;
    W.XorFacts(x, 0);
    W.XorFacts(y, 0);
    W.XorSelf(x);
  }
}
