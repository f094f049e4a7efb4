// From instructions as written to the fields the interpreter fetches, across both
// passes of the assembler.
module Assembled {
  import opened Arith
  import opened Common
  import opened Words
  import opened Isa
  import opened Execution
  import opened Yas
  import opened YasFacts

  // ------------------------------------------------------- instructions as written

  datatype Operand = Number(n: int) | Name(s: string)

  // disp(base), either of them optional
  datatype Memory = Memory(disp: Option<Operand>, base: Option<nat>)

  datatype Instruction =
    | Simple(m: Mnemonic)                       // nop, halt, ret
    | TwoRegs(m: Mnemonic, ra: nat, rb: nat)    // rrmovq, cmovXX, addq, subq, andq, xorq
    | OneReg(m: Mnemonic, ra: nat)              // pushq, popq
    | Dest(m: Mnemonic, dest: Operand)          // jmp, jXX, call
    | ImmReg(m: Mnemonic, v: Operand, rb: nat)  // irmovq, iaddq
    | Store(ra: nat, to: Memory)                // rmmovq
    | Load(from: Memory, ra: nat)               // mrmovq

  function NameOf(i: Instruction): Mnemonic
  {
    match i
      case Store(_, _) => Rmmovq
      case Load(_, _) => Mrmovq
      case _ => i.m
  }

  predicate InstructionOk(i: Instruction)
  {
    && MnemonicOk(NameOf(i))
    && match i
      case Simple(m) => m.Nop? || m.Halt? || m.Ret?
      case TwoRegs(m, a, b) => (m.Cmov? || m.Alu?) && a < 15 && b < 15
      case OneReg(m, a) => (m.Pushq? || m.Popq?) && a < 15
      case Dest(m, _) => m.Jump? || m.Call?
      case ImmReg(m, _, b) => (m.Irmovq? || m.Iaddq?) && b < 15
      case Store(a, x) => a < 15 && (x.base.Some? ==> x.base.value < 15)
      case Load(x, a) => a < 15 && (x.base.Some? ==> x.base.value < 15)
  }

  function OperandTok(v: Operand): Token
  {
    match v case Number(n) => Num(n) case Name(s) => Ident(s)
  }

  function MemoryToks(x: Memory): seq<Token>
  {
    (if x.disp.Some? then [OperandTok(x.disp.value)] else [])
    + (if x.base.Some? then [Punct('('), Reg(x.base.value), Punct(')')] else [])
  }

  function Operands(i: Instruction): seq<Token>
  {
    match i
      case Simple(_) => []
      case TwoRegs(_, a, b) => [Reg(a), Punct(','), Reg(b)]
      case OneReg(_, a) => [Reg(a)]
      case Dest(_, d) => [OperandTok(d)]
      case ImmReg(_, v, b) => [OperandTok(v), Punct(','), Reg(b)]
      case Store(a, x) => [Reg(a), Punct(',')] + MemoryToks(x)
      case Load(x, a) => MemoryToks(x) + [Punct(','), Reg(a)]
  }

  function LabelToks(tag: Option<string>): seq<Token>
  {
    if tag.Some? then [Ident(tag.value), Punct(':')] else []
  }

  // The tokens of a line: perhaps a label, then the instruction.
  function Text(tag: Option<string>, i: Instruction): seq<Token>
  {
    LabelToks(tag) + [Instr(NameOf(i))] + Operands(i)
  }

  // --------------------------------------------------------- what it should mean

  function ValueOf(v: Operand, syms: seq<(string, int)>): Option<int>
  {
    match v case Number(n) => Some(n) case Name(s) => FindSymbol(syms, s)
  }

  function MemoryValue(x: Memory, syms: seq<(string, int)>): Option<int>
  {
    if x.disp.Some? then ValueOf(x.disp.value, syms) else Some(0)
  }

  function BaseOf(x: Memory): nat { if x.base.Some? then x.base.value else REG_NONE }

  // rA, rB and the number of an instruction, in the layout of the Y86-64 encodings.
  function Meant(i: Instruction, syms: seq<(string, int)>): Option<Fields>
  {
    match i
      case Simple(_) => Some(Fields(REG_NONE, REG_NONE, 0))
      case TwoRegs(_, a, b) => Some(Fields(a, b, 0))
      case OneReg(_, a) => Some(Fields(a, REG_NONE, 0))
      case Dest(_, d) =>
        if ValueOf(d, syms).Some? then Some(Fields(REG_NONE, REG_NONE, ValueOf(d, syms).value)) else None
      case ImmReg(_, v, b) => if ValueOf(v, syms).Some? then Some(Fields(REG_NONE, b, ValueOf(v, syms).value)) else None
      case Store(a, x) =>
        if MemoryValue(x, syms).Some? then Some(Fields(a, BaseOf(x), MemoryValue(x, syms).value)) else None
      case Load(x, a) =>
        if MemoryValue(x, syms).Some? then Some(Fields(a, BaseOf(x), MemoryValue(x, syms).value)) else None
  }

  // itype and function code of each instruction
  function Opcode(m: Mnemonic): (int, int)
  {
    match m
      case Halt => (I_HALT, 0)
      case Nop => (I_NOP, 0)
      case Cmov(c) => (I_RRMOVQ, c)
      case Irmovq => (I_IRMOVQ, 0)
      case Rmmovq => (I_RMMOVQ, 0)
      case Mrmovq => (I_MRMOVQ, 0)
      case Alu(op) => (I_ALU, op)
      case Jump(c) => (I_JMP, c)
      case Call => (I_CALL, 0)
      case Ret => (I_RET, 0)
      case Pushq => (I_PUSHQ, 0)
      case Popq => (I_POPQ, 0)
      case Iaddq => (I_IADDQ, 0)
      case _ => (0, 0)
  }

  // ------------------------------------------------------------------ the parser

  lemma TokAt(pre: seq<Token>, line: seq<Token>, i: nat)
    ensures Tok(pre + line, |pre| + i) == Tok(line, i)
  {
  }

  lemma ParseOperand(line: seq<Token>, t: nat, v: Operand, syms: seq<(string, int)>, f: Fields)
    requires Tok(line, t) == OperandTok(v)
    ensures ParseNum(line, t, syms, f) ==
      if ValueOf(v, syms).Some? then Some((f.(imm := ValueOf(v, syms).value), t + 1)) else None
  {
  }

  // The tokens of a line from t on.
  ghost predicate Reads(line: seq<Token>, t: nat, toks: seq<Token>)
  {
    forall j: nat :: Tok(line, t + j) == Tok(toks, j)
  }

  lemma ReadsOn(line: seq<Token>, t: nat, x: seq<Token>, y: seq<Token>)
    requires Reads(line, t, x + y)
    ensures Reads(line, t + |x|, y)
    ensures forall j | 0 <= j < |x| :: Tok(line, t + j) == x[j]
  {
    forall j: nat ensures Tok(line, (t + |x|) + j) == Tok(y, j) {
      assert Tok(line, t + (|x| + j)) == Tok(x + y, |x| + j);
    }
    forall j | 0 <= j < |x| ensures Tok(line, t + j) == x[j] {
      assert Tok(line, t + j) == Tok(x + y, j);
    }
  }

  // After the operand x of get_mem comes the end of the line or a comma.
  lemma ParseMemory(line: seq<Token>, t: nat, x: Memory, rest: seq<Token>, syms: seq<(string, int)>, f: Fields)
    requires Reads(line, t, MemoryToks(x) + rest) && (rest == [] || rest[0] == Punct(','))
    ensures ParseMem(line, t, syms, f) ==
      if MemoryValue(x, syms).Some?
      then Some((f.(lo := BaseOf(x), imm := MemoryValue(x, syms).value), t + |MemoryToks(x)|)) else None
  {
    hide FindSymbol;
    var d := if x.disp.Some? then [OperandTok(x.disp.value)] else [];
    var b := if x.base.Some? then [Punct('('), Reg(x.base.value), Punct(')')] else [];
    assert MemoryToks(x) + rest == d + (b + rest);
    ReadsOn(line, t, d, b + rest);
    ReadsOn(line, t + |d|, b, rest);
    var u := t + |d|;
    assert Tok(line, u + |b| + 0) == Tok(rest, 0);
    if x.disp.Some? { assert Tok(line, t + 0) == d[0]; }
    if x.base.Some? {
      assert Tok(line, u + 0) == b[0] && Tok(line, u + 1) == b[1] && Tok(line, u + 2) == b[2];
    }
  }

  // finish_line reads back exactly the operands that were written.
  lemma ParsesBack(tag: Option<string>, i: Instruction, syms: seq<(string, int)>)
    requires InstructionOk(i)
    ensures ParseArgs(Table(NameOf(i)), Text(tag, i), |LabelToks(tag)| + 1, syms) == Meant(i, syms)
  {
    var pre := LabelToks(tag) + [Instr(NameOf(i))];
    forall j: nat ensures Tok(pre + Operands(i), |pre| + j) == Tok(Operands(i), j) {
      TokAt(pre, Operands(i), j);
    }
    ParsesOperands(Text(tag, i), |pre|, i, syms);
  }

  lemma ParsesOperands(line: seq<Token>, t: nat, i: Instruction, syms: seq<(string, int)>)
    requires InstructionOk(i) && Reads(line, t, Operands(i))
    ensures ParseArgs(Table(NameOf(i)), line, t, syms) == Meant(i, syms)
  {
    hide InstructionOk, Operands, Meant, ParseArgs, Table, Reads, NameOf;
    match i
      case Dest(_, _) => ParsesDest(line, t, i, syms);
      case ImmReg(_, _, _) => ParsesImmediate(line, t, i, syms);
      case Store(_, _) => ParsesStore(line, t, i, syms);
      case Load(_, _) => ParsesLoad(line, t, i, syms);
      case TwoRegs(_, _, _) => ParsesRegisters(line, t, i, syms);
      case _ => ParsesFew(line, t, i, syms);
  }

  lemma ParsesFew(line: seq<Token>, t: nat, i: Instruction, syms: seq<(string, int)>)
    requires InstructionOk(i) && (i.Simple? || i.OneReg?) && Reads(line, t, Operands(i))
    ensures ParseArgs(Table(NameOf(i)), line, t, syms) == Meant(i, syms)
  {
    hide ParseMem, MemoryToks, ValueOf, MemoryValue, FindSymbol, Reads;
    Split(line, t, Operands(i), |Operands(i)|);
  }

  lemma ParsesRegisters(line: seq<Token>, t: nat, i: Instruction, syms: seq<(string, int)>)
    requires InstructionOk(i) && i.TwoRegs? && Reads(line, t, Operands(i))
    ensures ParseArgs(Table(NameOf(i)), line, t, syms) == Meant(i, syms)
  {
    hide ParseMem, MemoryToks, ValueOf, MemoryValue, FindSymbol, Reads;
    Split(line, t, Operands(i), 3);
  }

  lemma ParsesDest(line: seq<Token>, t: nat, i: Instruction, syms: seq<(string, int)>)
    requires InstructionOk(i) && i.Dest? && Reads(line, t, Operands(i))
    ensures ParseArgs(Table(NameOf(i)), line, t, syms) == Meant(i, syms)
  {
    hide ParseMem, MemoryToks, ValueOf, MemoryValue, FindSymbol, Reads;
    Split(line, t, Operands(i), 1);
    ParseOperand(line, t, i.dest, syms, Fields(REG_NONE, REG_NONE, 0));
  }

  lemma ParsesImmediate(line: seq<Token>, t: nat, i: Instruction, syms: seq<(string, int)>)
    requires InstructionOk(i) && i.ImmReg? && Reads(line, t, Operands(i))
    ensures ParseArgs(Table(NameOf(i)), line, t, syms) == Meant(i, syms)
  {
    hide ParseMem, MemoryToks, ValueOf, MemoryValue, FindSymbol, Reads;
    Split(line, t, Operands(i), 3);
    ParseOperand(line, t, i.v, syms, Fields(REG_NONE, REG_NONE, 0));
  }

  lemma ParsesStore(line: seq<Token>, t: nat, i: Instruction, syms: seq<(string, int)>)
    requires InstructionOk(i) && i.Store? && Reads(line, t, Operands(i))
    ensures ParseArgs(Table(NameOf(i)), line, t, syms) == Meant(i, syms)
  {
    hide ParseMem, MemoryToks, ValueOf, MemoryValue, FindSymbol, Reads;
    var x := i.to;
    var start := [Reg(i.ra), Punct(',')];
    ReadsOn(line, t, start, MemoryToks(x));
    assert Tok(line, t + 0) == start[0] && Tok(line, t + 1) == start[1];
    assert MemoryToks(x) + [] == MemoryToks(x);
    ParseMemory(line, t + 2, x, [], syms, Fields(i.ra, REG_NONE, 0));
  }

  lemma ParsesLoad(line: seq<Token>, t: nat, i: Instruction, syms: seq<(string, int)>)
    requires InstructionOk(i) && i.Load? && Reads(line, t, Operands(i))
    ensures ParseArgs(Table(NameOf(i)), line, t, syms) == Meant(i, syms)
  {
    hide ParseMem, MemoryToks, ValueOf, MemoryValue, FindSymbol, Reads;
    var x := i.from;
    var end := [Punct(','), Reg(i.ra)];
    ReadsOn(line, t, MemoryToks(x), end);
    ParseMemory(line, t, x, end, syms, Fields(REG_NONE, REG_NONE, 0));
    Split(line, t + |MemoryToks(x)|, end, 2);
  }

  lemma Split(line: seq<Token>, t: nat, toks: seq<Token>, n: nat)
    requires Reads(line, t, toks) && n <= |toks|
    ensures n > 0 ==> Tok(line, t) == toks[0]
    ensures n > 1 ==> Tok(line, t + 1) == toks[1]
    ensures n > 2 ==> Tok(line, t + 2) == toks[2]
    ensures Reads(line, t + n, toks[n..])
  {
    assert toks[..n] + toks[n..] == toks;
    ReadsOn(line, t, toks[..n], toks[n..]);
    assert n > 0 ==> Tok(line, t + 0) == toks[..n][0];
    assert n > 1 ==> Tok(line, t + 1) == toks[..n][1];
    assert n > 2 ==> Tok(line, t + 2) == toks[..n][2];
  }

  // ------------------------------------------------------------ the two passes

  // The symbols pass 2 works with.
  function Symbols(lines: seq<seq<Token>>): seq<(string, int)>
    requires ProgramOk(lines)
  {
    Pass1(lines).syms
  }

  predicate Accepted(lines: seq<seq<Token>>)
    requires ProgramOk(lines)
  {
    !Pass1(lines).failed && !Pass2(lines, Symbols(lines)).failed
  }

  function Listing(lines: seq<seq<Token>>): seq<Listed>
    requires ProgramOk(lines)
  {
    Pass2(lines, Symbols(lines)).out
  }

  // The listing entry of line k: where the line goes and the bytes of its operands.
  ghost predicate Lists(lines: seq<seq<Token>>, k: nat, syms: seq<(string, int)>, l: Listed)
    requires ProgramOk(lines) && k < |lines|
  {
    && NextPos(lines[k], Addr(lines, k)) == Some(Addr(lines, k + 1))
    && Emitted(lines[k], syms) == Some(l.bytes)
    && l.pos == ListedPos(lines[k], Addr(lines, k), Addr(lines, k + 1))
    && l.blank == (lines[k] == [])
    && (l.blank || l.pos <= LAST_ADDRESS)
  }

  lemma {:induction false} OutPrefix(lines: seq<seq<Token>>, n: nat, syms: seq<(string, int)>)
    requires ProgramOk(lines) && n <= |lines| && !Pass2(lines[..n], syms).failed
    ensures |Pass2(lines[..n], syms).out| == n
    ensures forall k | 0 <= k < n :: Lists(lines, k, syms, Pass2(lines[..n], syms).out[k])
  {
    hide NextPos, Emitted, ListedPos, Lists;
    if n == 0 {
      assert lines[..0] == [];
    } else {
      AddrStep(lines, n - 1);
      PassesAgree(lines, n - 1, syms);
      OutPrefix(lines, n - 1, syms);
      OutLine(lines, n - 1, syms);
    }
  }

  lemma OutLine(lines: seq<seq<Token>>, k: nat, syms: seq<(string, int)>)
    requires ProgramOk(lines) && k < |lines| && !Pass2(lines[..k+1], syms).failed
    ensures var a := Pass2(lines[..k], syms);
      && !a.failed && |Pass2(lines[..k+1], syms).out| == |a.out| + 1
      && Pass2(lines[..k+1], syms).out[..|a.out|] == a.out
      && Lists(lines, k, syms, Pass2(lines[..k+1], syms).out[|a.out|])
  {
    hide NextPos, Emitted, ListedPos;
    AddrStep(lines, k);
    PassesAgree(lines, k, syms);
    PassesAgree(lines, k + 1, syms);
  }

  // An accepted program lists every line once, with the bytes of its operands, and the
  // lines follow each other in memory.
  lemma ListedLine(lines: seq<seq<Token>>, k: nat)
    requires ProgramOk(lines) && Accepted(lines) && k < |lines|
    ensures |Listing(lines)| == |lines|
    ensures Lists(lines, k, Symbols(lines), Listing(lines)[k])
  {
    hide Lists;
    assert lines[..|lines|] == lines;
    OutPrefix(lines, |lines|, Symbols(lines));
  }

  // What a name in an operand stands for.
  lemma NameMeans(lines: seq<seq<Token>>, name: string)
    requires ProgramOk(lines)
    ensures FindSymbol(Symbols(lines), name) ==
      match FirstDefinition(lines, |lines|, name) case None => None case Some(k) => Some(Addr(lines, k))
  {
    assert lines[..|lines|] == lines;
    LabelIsFirstDefinition(lines, |lines|, name);
  }

  lemma InstructionLine(tag: Option<string>, i: Instruction, pos: int, syms: seq<(string, int)>)
    requires InstructionOk(i) && RegsOk(Text(tag, i))
    ensures NextPos(Text(tag, i), pos) == Some(pos + Table(NameOf(i)).bytes)
    ensures ListedPos(Text(tag, i), pos, pos + Table(NameOf(i)).bytes) == pos
    ensures Meant(i, syms) == None ==> Emitted(Text(tag, i), syms) == None
    ensures Meant(i, syms).Some? ==> Meant(i, syms).value.hi < 16 && Meant(i, syms).value.lo < 16
    ensures Meant(i, syms).Some? ==>
      Emitted(Text(tag, i), syms) == Some(Encode(Table(NameOf(i)), Meant(i, syms).value))
  {
    hide ParseArgs, Table, Operands, Meant, Encode;
    ParsesBack(tag, i, syms);
    FieldsInRange(Table(NameOf(i)), Text(tag, i), |LabelToks(tag)| + 1, syms);
    InstructionToks(tag, i);
    NotDirective(i);
  }

  lemma InstructionToks(tag: Option<string>, i: Instruction)
    ensures var line := Text(tag, i);
      && line != [] && AfterLabel(line) == Some(|LabelToks(tag)|)
      && Tok(line, |LabelToks(tag)|) == Instr(NameOf(i)) && |line| > |LabelToks(tag)|
  {
  }

  lemma NotDirective(i: Instruction)
    requires InstructionOk(i)
    ensures NameOf(i) != Pos && NameOf(i) != Align && IsInstruction(NameOf(i))
  {
  }

  lemma MeantIsKept(i: Instruction, syms: seq<(string, int)>)
    requires InstructionOk(i) && Meant(i, syms).Some?
    ensures Kept(NameOf(i), Meant(i, syms).value) == Meant(i, syms).value
    ensures Opcode(NameOf(i)) == (Table(NameOf(i)).code / 16, Table(NameOf(i)).code % 16)
  {
  }

  // step_state fetches instruction i at a and falls through to next.
  ghost predicate FetchesAs(mem: seq<byte>, a: int, i: Instruction, syms: seq<(string, int)>, next: int)
  {
    && 0 <= a < TWO63 && InMem(mem, a, 1) && a < next
    && Meant(i, syms).Some?
    && var f := Meant(i, syms).value;
       Fetch(mem, a) == Fetched(Opcode(NameOf(i)).0, Opcode(NameOf(i)).1, f.hi, f.lo, true, Wrap(f.imm), true, next)
  }

  // Two-pass assembly is correct: once the bytes listed for an instruction are in
  // memory, step_state fetches there the instruction that was written, with every name
  // replaced by the address of its first definition, and goes on at the next line.
  lemma InstructionFetched(lines: seq<seq<Token>>, k: nat, tag: Option<string>, i: Instruction, mem: seq<byte>)
    requires ProgramOk(lines) && Accepted(lines) && k < |lines|
    requires InstructionOk(i) && lines[k] == Text(tag, i)
    requires |mem| < TWO63 && |Listing(lines)| == |lines|
    requires CodeAt(mem, Addr(lines, k), Listing(lines)[k].bytes)
    ensures Listing(lines)[k].pos == Addr(lines, k)
    ensures FetchesAs(mem, Addr(lines, k), i, Symbols(lines), Addr(lines, k + 1))
  {
    hide Fetch, Encode, Meant, ParseArgs, Opcode, Text, NextPos, Emitted, ListedPos, InMem, Accepted, Symbols,
         Listing, Kept, Table, Addr;
    var syms := Symbols(lines);
    ListedLine(lines, k);
    InstructionLine(tag, i, Addr(lines, k), syms);
    MeantIsKept(i, syms);
    NotDirective(i);
    var f := Meant(i, syms).value;
    EncodedSize(NameOf(i), f);
    SomeBytes(NameOf(i));
    Bounds(mem, Addr(lines, k), Encode(Table(NameOf(i)), f));
    FetchEncoded(NameOf(i), f, mem, Addr(lines, k));
  }

  lemma SomeBytes(m: Mnemonic)
    requires MnemonicOk(m) && IsInstruction(m)
    ensures 1 <= Table(m).bytes <= 10
  {
  }

  // .byte, .word, .long and .quad lay down their number little-endian.
  lemma DataLine(tag: Option<string>, n: nat, v: Operand, pos: int, syms: seq<(string, int)>)
    requires n == 1 || n == 2 || n == 4 || n == 8
    ensures var line := LabelToks(tag) + [Instr(Data(n)), OperandTok(v)];
      && RegsOk(line) && NextPos(line, pos) == Some(pos + n) && ListedPos(line, pos, pos + n) == pos
      && Emitted(line, syms) == (if ValueOf(v, syms).Some? then Some(ToBytes(ValueOf(v, syms).value, n)) else None)
  {
    hide FindSymbol, ToBytes;
    var line := LabelToks(tag) + [Instr(Data(n)), OperandTok(v)];
    var t := |LabelToks(tag)|;
    assert AfterLabel(line) == Some(t) && Tok(line, t) == Instr(Data(n)) && Tok(line, t + 1) == OperandTok(v);
    ParseOperand(line, t + 1, v, syms, Fields(REG_NONE, REG_NONE, 0));
  }

  // ------------------------------------------------------- lines that are refused

  // Pass 1 goes on to the next address exactly for lines of these shapes: nothing, a
  // label, or perhaps a label and then an instruction, with a number behind .pos and one
  // that is positive as an int behind .align.  What else is on the line does not matter
  // to it.
  ghost predicate Shaped(line: seq<Token>, tag: Option<string>)
  {
    var t := |LabelToks(tag)|;
    && LabelToks(tag) <= line
    && if |line| == t then tag.Some? else
         && line[t].Instr?
         && (line[t].m.Pos? || line[t].m.Align? ==> Tok(line, t + 1).Num?)
         && (line[t].m.Align? ==> ToInt(line[t+1].ival) > 0)
  }

  lemma FirstPassAccepts(line: seq<Token>, pos: int, syms: seq<(string, int)>)
    requires RegsOk(line)
    ensures NextPos(line, pos).Some? <==> line == [] || exists tag :: Shaped(line, tag)
    ensures forall tag | line == LabelToks(tag) ::
      NextPos(line, pos) == Some(pos) && ListedPos(line, pos, pos) == pos && Emitted(line, syms) == Some([])
  {
    hide ToInt, Table;
    if line != [] && NextPos(line, pos).Some? {
      var tag := if line[0].Ident? then Some(line[0].name) else None;
      assert Shaped(line, tag);
    }
    forall tag | line != [] && Shaped(line, tag) ensures NextPos(line, pos).Some? {
      assert tag.Some? ==> line[0] == LabelToks(tag)[0] && line[1] == LabelToks(tag)[1];
    }
  }

  // From token t on the line begins with these tokens.
  ghost predicate Begins(line: seq<Token>, t: nat, toks: seq<Token>)
  {
    forall j | 0 <= j < |toks| :: Tok(line, t + j) == toks[j]
  }

  // finish_line accepts no other operands than those of an instruction as written, and
  // takes them for what they are; it passes over tokens behind them.
  lemma OnlyInstructions(line: seq<Token>, t: nat, m: Mnemonic, syms: seq<(string, int)>) returns (i: Instruction)
    requires MnemonicOk(m) && IsInstruction(m) && RegsOk(line) && ParseArgs(Table(m), line, t, syms).Some?
    ensures InstructionOk(i) && NameOf(i) == m && Begins(line, t, Operands(i))
    ensures ParseArgs(Table(m), line, t, syms) == Meant(i, syms)
  {
    hide FindSymbol, ParseMem, MemoryToks, MemoryValue;
    match m
      case Nop => i := Simple(m);
      case Halt => i := Simple(m);
      case Ret => i := Simple(m);
      case Cmov(_) => i := TwoRegs(m, Tok(line, t).id, Tok(line, t + 2).id);
      case Alu(_) => i := TwoRegs(m, Tok(line, t).id, Tok(line, t + 2).id);
      case Pushq => i := OneReg(m, Tok(line, t).id);
      case Popq => i := OneReg(m, Tok(line, t).id);
      case Jump(_) => i := Dest(m, OperandAt(line, t));
      case Call => i := Dest(m, OperandAt(line, t));
      case Irmovq => i := ImmReg(m, OperandAt(line, t), Tok(line, t + 2).id);
      case Iaddq => i := ImmReg(m, OperandAt(line, t), Tok(line, t + 2).id);
      case Rmmovq => i := OnlyStore(line, t, syms);
      case Mrmovq => i := OnlyLoad(line, t, syms);
  }

  lemma OnlyStore(line: seq<Token>, t: nat, syms: seq<(string, int)>) returns (i: Instruction)
    requires RegsOk(line) && ParseArgs(Table(Rmmovq), line, t, syms).Some?
    ensures InstructionOk(i) && NameOf(i) == Rmmovq && Begins(line, t, Operands(i))
    ensures ParseArgs(Table(Rmmovq), line, t, syms) == Meant(i, syms)
  {
    hide FindSymbol, ParseMem, MemoryToks, MemoryValue;
    var x := MemoryAt(line, t + 2, syms, Fields(Tok(line, t).id, REG_NONE, 0));
    i := Store(Tok(line, t).id, x);
    BeginsAll(line, t, [Reg(i.ra), Punct(',')], MemoryToks(x));
  }

  lemma OnlyLoad(line: seq<Token>, t: nat, syms: seq<(string, int)>) returns (i: Instruction)
    requires RegsOk(line) && ParseArgs(Table(Mrmovq), line, t, syms).Some?
    ensures InstructionOk(i) && NameOf(i) == Mrmovq && Begins(line, t, Operands(i))
    ensures ParseArgs(Table(Mrmovq), line, t, syms) == Meant(i, syms)
  {
    hide FindSymbol, ParseMem, MemoryToks, MemoryValue;
    var x := MemoryAt(line, t, syms, Fields(REG_NONE, REG_NONE, 0));
    i := Load(x, Tok(line, t + |MemoryToks(x)| + 1).id);
    BeginsAll(line, t, MemoryToks(x), [Punct(','), Reg(i.ra)]);
  }

  function OperandAt(line: seq<Token>, t: nat): Operand
    requires Tok(line, t).Num? || Tok(line, t).Ident?
  {
    if Tok(line, t).Num? then Number(Tok(line, t).ival) else Name(Tok(line, t).name)
  }

  lemma BeginsAll(line: seq<Token>, t: nat, x: seq<Token>, y: seq<Token>)
    requires Begins(line, t, x) && Begins(line, t + |x|, y)
    ensures Begins(line, t, x + y)
  {
    forall j | 0 <= j < |x + y| ensures Tok(line, t + j) == (x + y)[j] {
      if j >= |x| { assert Tok(line, (t + |x|) + (j - |x|)) == y[j - |x|]; }
    }
  }

  // The operand get_mem read.
  lemma MemoryAt(line: seq<Token>, t: nat, syms: seq<(string, int)>, f: Fields) returns (x: Memory)
    requires RegsOk(line) && ParseMem(line, t, syms, f).Some?
    ensures Begins(line, t, MemoryToks(x)) && (x.base.Some? ==> x.base.value < 15) && MemoryValue(x, syms).Some?
    ensures ParseMem(line, t, syms, f) ==
      Some((f.(lo := BaseOf(x), imm := MemoryValue(x, syms).value), t + |MemoryToks(x)|))
  {
    hide FindSymbol;
    var disp := if Tok(line, t).Num? || Tok(line, t).Ident? then Some(OperandAt(line, t)) else None;
    var u := if disp.Some? then t + 1 else t;
    var base := if Tok(line, u) == Punct('(') then Some(Tok(line, u + 1).id) else None;
    x := Memory(disp, base);
    var d := if disp.Some? then [OperandTok(disp.value)] else [];
    var b := if base.Some? then [Punct('('), Reg(base.value), Punct(')')] else [];
    assert Begins(line, t, d) && Begins(line, u, b);
    BeginsAll(line, t, d, b);
  }

  // What .align n does to the address pos: the least multiple of n not below it.  C's
  // division rounds toward zero, so from pos <= -n on it is the least multiple not below
  // pos + n - 1 instead.
  ghost predicate AlignedTo(pos: int, n: int, next: int)
    requires n > 0
  {
    var least := if pos > -n then pos else pos + n - 1;
    next % n == 0 && least <= next < least + n
  }

  lemma AlignsUp(pos: int, n: int)
    requires n > 0
    ensures AlignedTo(pos, n, TruncDiv(pos + n - 1, n) * n)
  {
    var x := pos + n - 1;
    var q := TruncDiv(x, n);
    Quotient(x, n);
    Quotient(-x, n);
    assert (-((-x) / n)) * n == -(((-x) / n) * n);
    ModUnique(q * n, n, q, 0);
  }

  // A multiple of n from pos + n - 1 on.
  lemma BeyondLeast(pos: int, n: int, m: int)
    requires n > 0 && m % n == 0 && pos + n - 1 <= m < pos + 2 * n - 1
    ensures m < pos + n <==> pos % n == 1 % n
  {
    var k, e := m / n, m - (pos + n - 1);
    assert m == k * n;
    assert (k - 1) * n == k * n - n;
    if n == 1 {
      ModUnique(pos, 1, pos, 0);
      ModUnique(1, 1, 1, 0);
    } else {
      ModUnique(1, n, 0, 1);
      if e <= 1 {
        ModUnique(pos, n, k - 1, 1 - e);
      } else {
        assert (k - 2) * n == k * n - 2 * n;
        ModUnique(pos, n, k - 2, n + 1 - e);
      }
    }
  }

  // So .align finds the least multiple not below the old address exactly for addresses
  // above -n and for those one above a multiple of n; from -16, .align 8 goes to -8.
  lemma AlignsToLeast(pos: int, n: int)
    requires n > 0
    ensures var m := TruncDiv(pos + n - 1, n) * n;
      pos <= m < pos + n && m % n == 0 <==> pos > -n || pos % n == 1 % n
    ensures TruncDiv(-16 + 8 - 1, 8) * 8 == -8
  {
    AlignsUp(pos, n);
    if pos <= -n { BeyondLeast(pos, n, TruncDiv(pos + n - 1, n) * n); }
  }

  // .pos and .align emit nothing, move the address and are listed at the new one; .align
  // fails exactly if its number, read as an int, is not positive.
  lemma DirectiveLine(tag: Option<string>, align: bool, n: int, pos: int, syms: seq<(string, int)>)
    ensures var line := LabelToks(tag) + [Instr(if align then Align else Pos), Num(n)];
      && RegsOk(line) && Emitted(line, syms) == Some([])
      && (NextPos(line, pos).None? <==> align && ToInt(n) <= 0)
      && forall next :: NextPos(line, pos) == Some(next) ==>
           && ListedPos(line, pos, next) == next
           && if align then AlignedTo(pos, ToInt(n), next) else next == ToInt(n)
    ensures -0x8000_0000 <= ToInt(n) < 0x8000_0000 && (n - ToInt(n)) % 0x1_0000_0000 == 0
  {
    hide AlignedTo;
    var line := LabelToks(tag) + [Instr(if align then Align else Pos), Num(n)];
    var t := |LabelToks(tag)|;
    assert AfterLabel(line) == Some(t) && Tok(line, t + 1) == Num(n);
    assert Tok(line, t) == Instr(if align then Align else Pos);
    if align && ToInt(n) > 0 { AlignsUp(pos, ToInt(n)); }
  }
}
