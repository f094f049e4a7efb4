// Programs as a person writes them, and the whole toolchain on them: assembled, printed,
// loaded back into memory.
module Source {
  import opened Common
  import opened Words
  import opened Execution
  import opened Yas
  import opened YasFacts
  import opened Assembled
  import L = Listing

  datatype Line =
    | Blank                                                   // empty, or only a comment
    | Mark(name: string)                                      // a label alone
    | Code(i: Instruction)
    | Datum(size: nat, v: Operand)                            // .byte .word .long .quad
    | SetPos(n: int)                                          // .pos
    | AlignTo(n: int)                                         // .align

  predicate LineOk(l: Line)
  {
    match l
      case Code(i) => InstructionOk(i)
      case Datum(n, _) => n == 1 || n == 2 || n == 4 || n == 8
      case AlignTo(n) => 0 < ToInt(n)
      case _ => true
  }

  function Toks(l: Line): seq<Token>
  {
    match l
      case Blank => []
      case Mark(name) => [Ident(name), Punct(':')]
      case Code(i) => Text(None, i)
      case Datum(n, v) => [Instr(Data(n)), OperandTok(v)]
      case SetPos(n) => [Instr(Pos), Num(n)]
      case AlignTo(n) => [Instr(Align), Num(n)]
  }

  // The address after a line that starts at pos.
  function After(l: Line, pos: int): int
    requires LineOk(l)
  {
    match l
      case Code(i) => pos + Table(NameOf(i)).bytes
      case Datum(n, _) => pos + n
      case SetPos(n) => ToInt(n)
      case AlignTo(n) => TruncDiv(pos + ToInt(n) - 1, ToInt(n)) * ToInt(n)
      case _ => pos
  }

  // The address the listing shows for a line that starts at pos.
  function ShownAt(l: Line, pos: int): int
    requires LineOk(l)
  {
    if l.SetPos? || l.AlignTo? then After(l, pos) else pos
  }

  // The bytes of a line, unless it uses a name that nothing defines.
  function BytesOf(l: Line, syms: seq<(string, int)>): Option<seq<byte>>
    requires LineOk(l)
  {
    match l
      case Code(i) =>
        MeantRange(i, syms); if Meant(i, syms).None? then None else Some(Encode(Table(NameOf(i)), Meant(i, syms).value))
      case Datum(n, v) => if ValueOf(v, syms).None? then None else Some(ToBytes(ValueOf(v, syms).value, n))
      case _ => Some([])
  }

  lemma MeantRange(i: Instruction, syms: seq<(string, int)>)
    requires InstructionOk(i)
    ensures Meant(i, syms).Some? ==> Meant(i, syms).value.hi < 16 && Meant(i, syms).value.lo < 16
  {
  }

  predicate ProgOk(ls: seq<Line>)
  {
    forall k | 0 <= k < |ls| :: LineOk(ls[k])
  }

  function AllToks(ls: seq<Line>): (r: seq<seq<Token>>)
    ensures |r| == |ls| && forall k | 0 <= k < |ls| :: r[k] == Toks(ls[k])
  {
    seq(|ls|, k requires 0 <= k < |ls| => Toks(ls[k]))
  }

  // What the assembler does with a line.
  ghost predicate Treated(l: Line, pos: int, syms: seq<(string, int)>)
    requires LineOk(l)
  {
    var line := Toks(l);
    && RegsOk(line) && NextPos(line, pos) == Some(After(l, pos))
    && Emitted(line, syms) == BytesOf(l, syms)
    && ListedPos(line, pos, After(l, pos)) == ShownAt(l, pos)
    && (line == [] <==> l.Blank?)
    && forall name :: Defines(line, name) <==> l == Mark(name)
  }

  lemma LineFacts(l: Line, pos: int, syms: seq<(string, int)>)
    requires LineOk(l)
    ensures Treated(l, pos, syms)
  {
    hide Treated;
    match l
      case Code(_) => CodeTreated(l, pos, syms);
      case Datum(_, _) => DatumTreated(l, pos, syms);
      case _ => OtherTreated(l, pos, syms);
  }

  lemma CodeTreated(l: Line, pos: int, syms: seq<(string, int)>)
    requires LineOk(l) && l.Code?
    ensures Treated(l, pos, syms)
  {
    hide BytesOf, Text, RegsOk, NextPos, Emitted, ListedPos, Defines, Table;
    CodeFacts(l.i, pos, syms);
  }

  lemma DatumTreated(l: Line, pos: int, syms: seq<(string, int)>)
    requires LineOk(l) && l.Datum?
    ensures Treated(l, pos, syms)
  {
    hide RegsOk, NextPos, Emitted, ListedPos, ToBytes, FindSymbol;
    DataLine(None, l.size, l.v, pos, syms);
    assert LabelToks(None) + [Instr(Data(l.size)), OperandTok(l.v)] == Toks(l);
  }

  lemma OtherTreated(l: Line, pos: int, syms: seq<(string, int)>)
    requires LineOk(l) && !l.Code? && !l.Datum?
    ensures Treated(l, pos, syms)
  {
    hide ToInt, TruncDiv, FindSymbol, ParseArgs, Table;
  }

  lemma CodeFacts(i: Instruction, pos: int, syms: seq<(string, int)>)
    requires InstructionOk(i)
    ensures var line := Text(None, i);
      && RegsOk(line) && NextPos(line, pos) == Some(pos + Table(NameOf(i)).bytes)
      && ListedPos(line, pos, pos + Table(NameOf(i)).bytes) == pos
      && Emitted(line, syms) == BytesOf(Code(i), syms)
      && line != [] && forall name :: !Defines(line, name)
  {
    hide FindSymbol, ToBytes, Encode, Meant, Table, Operands, ParseArgs, RegsOk, NextPos, Emitted, ListedPos;
    RegsOfText(i);
    InstructionLine(None, i, pos, syms);
  }

  lemma RegsOfText(i: Instruction)
    requires InstructionOk(i)
    ensures RegsOk(Text(None, i)) && Text(None, i) != [] && !Tok(Text(None, i), 0).Ident?
  {
    assert Text(None, i)[0] == Instr(NameOf(i));
    OperandRegs(i);
  }

  lemma OperandRegs(i: Instruction)
    requires InstructionOk(i)
    ensures forall k | 0 <= k < |Operands(i)| ::
      (Operands(i)[k].Reg? ==> Operands(i)[k].id < 15) && !Operands(i)[k].Instr?
  {
  }

  // The address of line k.
  function PosOf(ls: seq<Line>, k: nat): int
    requires ProgOk(ls) && k <= |ls|
  {
    if k == 0 then 0 else After(ls[k-1], PosOf(ls, k - 1))
  }

  lemma ToksOk(ls: seq<Line>)
    requires ProgOk(ls)
    ensures ProgramOk(AllToks(ls))
  {
    hide Toks, RegsOk;
    forall k | 0 <= k < |ls| ensures RegsOk(Toks(ls[k])) {
      LineFacts(ls[k], 0, []);
    }
  }

  lemma {:induction false} Addresses(ls: seq<Line>, k: nat)
    requires ProgOk(ls) && ProgramOk(AllToks(ls)) && k <= |ls|
    ensures Addr(AllToks(ls), k) == PosOf(ls, k)
    ensures !Pass1(AllToks(ls)[..k]).failed
  {
    hide Toks, After, NextPos, Label, LineOk, RegsOk;
    if k == 0 {
      assert AllToks(ls)[..0] == [];
    } else {
      AddrStep(AllToks(ls), k - 1);
      Addresses(ls, k - 1);
      LineFacts(ls[k-1], PosOf(ls, k - 1), []);
    }
  }

  // The assembler gets line k right: its names are defined and, unless the line is
  // blank, the listing has room for its address.
  predicate Listable(ls: seq<Line>, k: nat, syms: seq<(string, int)>)
    requires ProgOk(ls) && k < |ls|
  {
    BytesOf(ls[k], syms).Some? && (ls[k].Blank? || ShownAt(ls[k], PosOf(ls, k)) <= LAST_ADDRESS)
  }

  lemma AcceptedNext(ls: seq<Line>, k: nat, syms: seq<(string, int)>)
    requires ProgOk(ls) && ProgramOk(AllToks(ls)) && k < |ls|
    ensures !Pass2(AllToks(ls)[..k+1], syms).failed <==> !Pass2(AllToks(ls)[..k], syms).failed && Listable(ls, k, syms)
  {
    hide Toks, After, NextPos, LineOk, RegsOk, BytesOf, Emitted, ListedPos, ShownAt, PosOf;
    var t := AllToks(ls);
    AddrStep(t, k);
    PassesAgree(t, k, syms);
    Addresses(ls, k);
    assert LineOk(ls[k]);
    LineFacts(ls[k], PosOf(ls, k), syms);
  }

  lemma NothingFails(ls: seq<Line>, syms: seq<(string, int)>)
    requires ProgOk(ls) && ProgramOk(AllToks(ls))
    ensures !Pass2(AllToks(ls)[..0], syms).failed
  {
    assert AllToks(ls)[..0] == [];
  }

  lemma {:induction false} AcceptedUpTo(ls: seq<Line>, k: nat, syms: seq<(string, int)>)
    requires ProgOk(ls) && ProgramOk(AllToks(ls)) && k <= |ls|
    ensures !Pass2(AllToks(ls)[..k], syms).failed <==> forall j | 0 <= j < k :: Listable(ls, j, syms)
  {
    hide Toks, LineOk, RegsOk, Listable, Pass2, AllToks, Pass2Line;
    if k == 0 {
      NothingFails(ls, syms);
    } else {
      AcceptedUpTo(ls, k - 1, syms);
      AcceptedNext(ls, k - 1, syms);
    }
  }

  // A program of well-formed lines is accepted exactly if every name it uses is defined
  // and every line with tokens is listed at an address up to 0xFFFF.
  lemma AcceptedIffDefined(ls: seq<Line>)
    requires ProgOk(ls)
    ensures ProgramOk(AllToks(ls))
    ensures Accepted(AllToks(ls)) <==> forall k | 0 <= k < |ls| :: Listable(ls, k, Symbols(AllToks(ls)))
  {
    hide BytesOf, RegsOk, Listable;
    ToksOk(ls);
    var t := AllToks(ls);
    assert t[..|ls|] == t;
    Addresses(ls, |ls|);
    AcceptedUpTo(ls, |ls|, Symbols(t));
  }

  // ------------------------------------------------------- into memory and back

  // Listing entries in increasing order of address, from low on and within n bytes.
  ghost predicate Forward(ls: seq<Listed>, low: int, n: int)
    decreases |ls|
  {
    ls == [] || (low <= ls[0].pos && ls[0].pos + |ls[0].bytes| <= n && Forward(ls[1..], ls[0].pos + |ls[0].bytes|, n))
  }

  lemma {:induction false} ForwardFits(ls: seq<Listed>, low: int, n: int)
    requires Forward(ls, low, n) && 0 <= low
    ensures forall k | 0 <= k < |ls| :: low <= ls[k].pos <= n - |ls[k].bytes|
    decreases |ls|
  {
    if ls != [] {
      ForwardFits(ls[1..], ls[0].pos + |ls[0].bytes|, n);
      forall k | 0 <= k < |ls| ensures low <= ls[k].pos <= n - |ls[k].bytes| {
        assert k > 0 ==> ls[k] == ls[1..][k-1];
      }
    }
  }

  // What is loaded in increasing order stays: every line's bytes end up at its address.
  lemma {:induction false} ImageHolds(ls: seq<Listed>, low: int, m: seq<byte>)
    requires Forward(ls, low, |m|) && 0 <= low
    ensures forall k | 0 <= k < |ls| :: low <= ls[k].pos <= |m| - |ls[k].bytes|
    ensures forall i | 0 <= i < low && i < |m| :: L.Image(ls, m)[i] == m[i]
    ensures forall k | 0 <= k < |ls| :: CodeAt(L.Image(ls, m), ls[k].pos, ls[k].bytes)
    decreases |ls|
  {
    hide CodeAt;
    ForwardFits(ls, low, |m|);
    if ls != [] {
      var l := ls[0];
      var m1 := L.Put(m, l);
      ImageHolds(ls[1..], l.pos + |l.bytes|, m1);
      var r := L.Image(ls, m);
      PutHolds(m, l);
      CodeFrame(m1, r, l.pos, l.bytes);
      forall k | 0 <= k < |ls| ensures CodeAt(r, ls[k].pos, ls[k].bytes) {
        assert k > 0 ==> ls[k] == ls[1..][k-1];
      }
    }
  }

  lemma PutHolds(m: seq<byte>, l: Listed)
    requires 0 <= l.pos <= |m| - |l.bytes|
    ensures CodeAt(L.Put(m, l), l.pos, l.bytes)
    ensures forall i | 0 <= i < l.pos :: L.Put(m, l)[i] == m[i]
  {
    assert L.Put(m, l)[l.pos..l.pos+|l.bytes|] == l.bytes;
  }

  lemma AllPrintable(ls: seq<Line>)
    requires ProgOk(ls) && ProgramOk(AllToks(ls)) && Accepted(AllToks(ls))
    ensures |Assembled.Listing(AllToks(ls))| == |ls|
    ensures forall k | 0 <= k < |ls| :: L.Printable(Assembled.Listing(AllToks(ls))[k])
  {
    hide L.Printable, Accepted, Assembled.Listing, BytesOf, Toks, RegsOk, LineOk;
    if |ls| > 0 { PrintableLine(ls, 0); } else { NothingListed(AllToks(ls)); }
    forall k | 0 <= k < |ls| ensures L.Printable(Assembled.Listing(AllToks(ls))[k]) {
      PrintableLine(ls, k);
    }
  }

  // A program assembled, printed and loaded into the memory m.
  function LoadedFrom(ls: seq<Line>, texts: seq<string>, m: seq<byte>): (r: L.Loaded)
    requires ProgOk(ls) && ProgramOk(AllToks(ls)) && Accepted(AllToks(ls)) && |texts| == |ls|
    ensures |r.m| == |m|
  {
    AllPrintable(ls);
    L.Load(L.Buffers(L.Print(Assembled.Listing(AllToks(ls)), texts)), L.Loaded(m, 0, true))
  }

  // The toolchain from source to memory, for a program whose lines go up in memory:
  // after assembling, printing and loading, every line's bytes are at its address, and
  // nothing else is loaded, exactly if the overlong lines of the listing leave nothing
  // behind.  That every line can be printed is part of its being accepted.
  lemma Toolchain(ls: seq<Line>, texts: seq<string>, m: seq<byte>)
    requires ProgOk(ls) && ProgramOk(AllToks(ls)) && Accepted(AllToks(ls)) && |texts| == |ls|
    requires Forward(Assembled.Listing(AllToks(ls)), 0, |m|)
    requires forall k | 0 <= k < |ls| :: L.TextOk(texts[k])
    ensures var out := Assembled.Listing(AllToks(ls));
      && |out| == |ls|
      && (forall k | 0 <= k < |ls| :: out[k].bytes == [] || 0 <= out[k].pos <= |m| - |out[k].bytes|)
      && (forall k | 0 <= k < |ls| :: CodeAt(L.Image(out, m), out[k].pos, out[k].bytes))
      && (LoadedFrom(ls, texts, m) == L.Loaded(L.Image(out, m), L.Total(out), true)
          <==> forall k | 0 <= k < |ls| :: L.Inert(L.Tail(out[k], texts[k])))
  {
    hide L.TextOk, L.Inert, L.Tail, CodeAt, L.Image, L.Print, L.Load, L.Buffers, Accepted, Assembled.Listing,
         BytesOf, Toks, Forward;
    var t := AllToks(ls);
    var out := Assembled.Listing(t);
    ForwardFits(out, 0, |m|);
    AllPrintable(ls);
    L.LoadUndoesPrint(out, texts, m, 0);
    ImageHolds(out, 0, m);
  }

  lemma NothingListed(t: seq<seq<Token>>)
    requires ProgramOk(t) && t == []
    ensures Assembled.Listing(t) == []
  {
  }

  lemma PrintableLine(ls: seq<Line>, k: nat)
    requires ProgOk(ls) && ProgramOk(AllToks(ls)) && Accepted(AllToks(ls)) && k < |ls|
    ensures |Assembled.Listing(AllToks(ls))| == |ls|
    ensures L.Printable(Assembled.Listing(AllToks(ls))[k])
    ensures Some(Assembled.Listing(AllToks(ls))[k].bytes) == BytesOf(ls[k], Symbols(AllToks(ls)))
    ensures Assembled.Listing(AllToks(ls))[k].pos == ShownAt(ls[k], PosOf(ls, k))
  {
    hide Accepted, Assembled.Listing, Toks, NextPos, Emitted, ListedPos, After;
    var t := AllToks(ls);
    ListedLine(t, k);
    Addresses(ls, k);
    LineFacts(ls[k], PosOf(ls, k), Symbols(t));
    ShortBytes(ls[k], Symbols(t));
  }

  lemma ShortBytes(l: Line, syms: seq<(string, int)>)
    requires LineOk(l)
    ensures BytesOf(l, syms).Some? ==> |BytesOf(l, syms).value| <= 10 && (l.Blank? ==> BytesOf(l, syms) == Some([]))
  {
    hide Meant, ToBytes;
  }

  // The address of a name, in terms of the source.
  lemma DefinedAt(ls: seq<Line>, k: nat, name: string)
    requires ProgOk(ls) && ProgramOk(AllToks(ls)) && k < |ls| && ls[k] == Mark(name)
    requires forall j | 0 <= j < k :: ls[j] != Mark(name)
    ensures FindSymbol(Symbols(AllToks(ls)), name) == Some(PosOf(ls, k))
  {
    hide FindSymbol, Toks, Symbols, Defines, RegsOk, PosOf, Addr, LineOk;
    var t := AllToks(ls);
    NameMeans(t, name);
    forall j | 0 <= j < |ls| ensures Defines(t[j], name) <==> ls[j] == Mark(name) {
      assert LineOk(ls[j]);
      LineFacts(ls[j], 0, []);
    }
    var r := FirstDefinition(t, |t|, name);
    assert Defines(t[k], name);
    Addresses(ls, k);
  }

  ghost predicate Climbs(ls: seq<Line>, j: nat, n: int)
    requires ProgOk(ls) && j < |ls|
  {
    PosOf(ls, j) <= PosOf(ls, j + 1) <= n
  }

  // A program whose .pos directives never go back lists its lines in increasing order.
  lemma {:induction false} ForwardFrom(ls: seq<Line>, k: nat, n: int)
    requires ProgOk(ls) && ProgramOk(AllToks(ls)) && Accepted(AllToks(ls)) && k <= |ls|
    requires forall j | 0 <= j < |ls| :: Climbs(ls, j, n)
    ensures |Assembled.Listing(AllToks(ls))| == |ls|
    ensures Forward(Assembled.Listing(AllToks(ls))[k..], if k < |ls| then PosOf(ls, k) else 0, n)
    decreases |ls| - k
  {
    hide Accepted, Assembled.Listing, Toks, RegsOk, LineOk, PosOf;
    var out := Assembled.Listing(AllToks(ls));
    if k == |ls| {
      if |ls| > 0 { ListedLine(AllToks(ls), 0); } else { NothingListed(AllToks(ls)); }
    } else {
      ForwardFrom(ls, k + 1, n);
      assert Climbs(ls, k, n);
      LineExtent(ls, k);
      ForwardStep(out, k, PosOf(ls, k), if k + 1 < |ls| then PosOf(ls, k + 1) else 0, n);
    }
  }

  lemma ForwardStep(out: seq<Listed>, k: nat, low: int, low': int, n: int)
    requires k < |out| && low <= out[k].pos && out[k].pos + |out[k].bytes| <= n
    requires Forward(out[k+1..], low', n) && (k + 1 < |out| ==> out[k].pos + |out[k].bytes| <= low')
    ensures Forward(out[k..], low, n)
  {
    assert out[k..][0] == out[k] && out[k..][1..] == out[k+1..];
  }

  lemma LineExtent(ls: seq<Line>, k: nat)
    requires ProgOk(ls) && ProgramOk(AllToks(ls)) && Accepted(AllToks(ls)) && k < |ls|
    requires PosOf(ls, k) <= PosOf(ls, k + 1)
    ensures |Assembled.Listing(AllToks(ls))| == |ls|
    ensures var l := Assembled.Listing(AllToks(ls))[k];
      PosOf(ls, k) <= l.pos && l.pos + |l.bytes| == PosOf(ls, k + 1)
  {
    hide Accepted, Assembled.Listing, Toks, RegsOk, PosOf;
    PrintableLine(ls, k);
    assert PosOf(ls, k + 1) == After(ls[k], PosOf(ls, k)) by { NextPosOf(ls, k); }
    BytesExtent(ls[k], PosOf(ls, k), Symbols(AllToks(ls)));
  }

  lemma NextPosOf(ls: seq<Line>, k: nat)
    requires ProgOk(ls) && k < |ls|
    ensures PosOf(ls, k + 1) == After(ls[k], PosOf(ls, k))
  {
  }

  lemma BytesExtent(l: Line, pos: int, syms: seq<(string, int)>)
    requires LineOk(l)
    ensures BytesOf(l, syms).Some? ==>
      |BytesOf(l, syms).value| == if l.SetPos? || l.AlignTo? then 0 else After(l, pos) - pos
  {
    hide Meant, ToBytes, ToInt, TruncDiv;
  }
}
