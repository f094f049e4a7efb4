// The two-pass assembler of archlab-handout/sim/misc/yas.c, line by line on tokens.
module Yas {
  import opened Common
  import opened Words
  import opened Isa

  // The mnemonics of instruction_set, with the conditions in the order of cond_t.
  datatype Mnemonic =
    | Nop | Halt | Cmov(cond: nat) | Irmovq | Rmmovq | Mrmovq | Alu(op: nat) | Jump(cond: nat)
    | Call | Ret | Pushq | Popq | Iaddq
    | Data(size: nat)      // .byte .word .long .quad
    | Pos | Align

  predicate MnemonicOk(m: Mnemonic)
  {
    match m
      case Cmov(c) => c <= 6
      case Jump(c) => c <= 6
      case Alu(op) => op <= 3
      case Data(n) => n == 1 || n == 2 || n == 4 || n == 8
      case _ => true
  }

  datatype Token = Ident(name: string) | Num(ival: int) | Reg(id: nat) | Instr(m: Mnemonic) | Punct(c: char) | NoToken

  datatype Arg = RArg | MArg | IArg | NoArg

  // instr_t: code, size, and for each argument its kind, its position and arg1hi/arg2hi
  datatype Entry = Entry(code: byte, bytes: nat, arg1: Arg, pos1: nat, hi1: nat, arg2: Arg, pos2: nat, hi2: nat)

  // instruction_set
  function Table(m: Mnemonic): Entry
    requires MnemonicOk(m)
  {
    match m
      case Nop => Entry(0x10, 1, NoArg, 0, 0, NoArg, 0, 0)
      case Halt => Entry(0x00, 1, NoArg, 0, 0, NoArg, 0, 0)
      case Cmov(c) => Entry(0x20 + c, 2, RArg, 1, 1, RArg, 1, 0)
      case Irmovq => Entry(0x30, 10, IArg, 2, 8, RArg, 1, 0)
      case Rmmovq => Entry(0x40, 10, RArg, 1, 1, MArg, 1, 0)
      case Mrmovq => Entry(0x50, 10, MArg, 1, 0, RArg, 1, 1)
      case Alu(op) => Entry(0x60 + op, 2, RArg, 1, 1, RArg, 1, 0)
      case Jump(c) => Entry(0x70 + c, 9, IArg, 1, 8, NoArg, 0, 0)
      case Call => Entry(0x80, 9, IArg, 1, 8, NoArg, 0, 0)
      case Ret => Entry(0x90, 1, NoArg, 0, 0, NoArg, 0, 0)
      case Pushq => Entry(0xA0, 2, RArg, 1, 1, NoArg, 0, 0)
      case Popq => Entry(0xB0, 2, RArg, 1, 1, NoArg, 0, 0)
      case Iaddq => Entry(0xC0, 10, IArg, 2, 8, RArg, 1, 0)
      case Data(n) => Entry(0x00, n, IArg, 0, n, NoArg, 0, 0)
      case Pos => Entry(0x00, 0, NoArg, 0, 0, NoArg, 0, 0)
      case Align => Entry(0x00, 0, NoArg, 0, 0, NoArg, 0, 0)
  }

  // ------------------------------------------------------------------- operands

  function Tok(line: seq<Token>, i: nat): Token { if i < |line| then line[i] else NoToken }

  // find_symbol: the first entry of that name.
  function FindSymbol(syms: seq<(string, int)>, name: string): Option<int>
  {
    if syms == [] then None
    else if syms[0].0 == name then Some(syms[0].1)
    else FindSymbol(syms[1..], name)
  }

  // What the operands of an instruction set: the high and low register nibble of the
  // register byte, and the number.
  datatype Fields = Fields(hi: nat, lo: nat, imm: int)

  // An operand parsed so far, and the next token; None after a failure.
  type Parsed = Option<(Fields, nat)>

  function ParseReg(line: seq<Token>, t: nat, hi: nat, f: Fields): Parsed
  {
    match Tok(line, t)
      case Reg(id) => Some((if hi == 1 then f.(hi := id) else f.(lo := id), t + 1))
      case _ => None
  }

  function ParseNum(line: seq<Token>, t: nat, syms: seq<(string, int)>, f: Fields): Parsed
  {
    match Tok(line, t)
      case Num(i) => Some((f.(imm := i), t + 1))
      case Ident(s) => if FindSymbol(syms, s).Some? then Some((f.(imm := FindSymbol(syms, s).value), t + 1)) else None
      case _ => None
  }

  // get_mem: Num(Reg), (Reg), Num, Ident or Ident(Reg); the register goes to the low
  // nibble.
  function ParseMem(line: seq<Token>, t: nat, syms: seq<(string, int)>, f: Fields): Parsed
  {
    var disp :=
      match Tok(line, t)
        case Num(i) => Some((i, t + 1))
        case Ident(s) => if FindSymbol(syms, s).Some? then Some((FindSymbol(syms, s).value, t + 1)) else None
        case _ => Some((0, t));
    if disp.None? then None
    else
      var (val, u) := disp.value;
      if Tok(line, u) == Punct('(') then
        if Tok(line, u + 1).Reg? && Tok(line, u + 2) == Punct(')')
        then Some((f.(lo := Tok(line, u + 1).id, imm := val), u + 3))
        else None
      else Some((f.(lo := REG_NONE, imm := val), u))
  }

  function ParseArg(arg: Arg, hi: nat, line: seq<Token>, t: nat, syms: seq<(string, int)>, f: Fields): Parsed
  {
    match arg
      case RArg => ParseReg(line, t, hi, f)
      case MArg => ParseMem(line, t, syms, f)
      case IArg => ParseNum(line, t, syms, f)
      case NoArg => Some((f, t))
  }

  function ParseArgs(e: Entry, line: seq<Token>, t: nat, syms: seq<(string, int)>): Option<Fields>
  {
    var p1 := ParseArg(e.arg1, e.hi1, line, t, syms, Fields(REG_NONE, REG_NONE, 0));
    if p1.None? then None
    else if e.arg2.NoArg? then Some(p1.value.0)
    else if Tok(line, p1.value.1) != Punct(',') then None
    else
      var p2 := ParseArg(e.arg2, e.hi2, line, p1.value.1 + 1, syms, p1.value.0);
      if p2.None? then None else Some(p2.value.0)
  }

  // The bytes of an instruction with the given fields.
  function Encode(e: Entry, f: Fields): seq<byte>
    requires f.hi < 16 && f.lo < 16
  {
    if e.pos1 == 0 && e.arg1.IArg? then ToBytes(f.imm, e.bytes)
    else
      [e.code]
      + (if NeedRegids(e.code / 16) then [16 * f.hi + f.lo] else [])
      + (if NeedImm(e.code / 16) then ToBytes(f.imm, 8) else [])
  }

  // ----------------------------------------------------------------- finish_line

  // A listing line of pass 2: the address print_code gets, the bytes, and whether the
  // line had no tokens at all.
  datatype Listed = Listed(pos: int, bytes: seq<byte>, blank: bool)

  datatype Asm = Asm(bytepos: int, syms: seq<(string, int)>, failed: bool, out: seq<Listed>)

  // Conversion of a word_t to an int.
  function ToInt(x: int): int { (x + 0x8000_0000) % 0x1_0000_0000 - 0x8000_0000 }

  // Division as C does it, for a positive divisor.
  function TruncDiv(x: int, d: int): int
    requires d > 0
  {
    if x >= 0 then x / d else -((-x) / d)
  }

  predicate RegsOk(line: seq<Token>)
  {
    forall i | 0 <= i < |line| :: (line[i].Reg? ==> line[i].id < 15) && (line[i].Instr? ==> MnemonicOk(line[i].m))
  }

  // Where the instruction of a line starts: after its label.
  function AfterLabel(line: seq<Token>): Option<nat>
  {
    if Tok(line, 0).Ident? then (if Tok(line, 1) == Punct(':') then Some(2) else None) else Some(0)
  }

  // The address after a line, and whether finish_line got as far as updating it; this
  // looks at tokens only.
  function NextPos(line: seq<Token>, bytepos: int): Option<int>
    requires RegsOk(line)
  {
    if line == [] then Some(bytepos)
    else if AfterLabel(line).None? then None
    else
      var t := AfterLabel(line).value;
      if t == 2 && |line| == 2 then Some(bytepos)
      else
        match Tok(line, t)
          case Instr(Pos) =>
            (match Tok(line, t + 1) case Num(i) => Some(ToInt(i)) case _ => None)
          case Instr(Align) =>
            (match Tok(line, t + 1)
              case Num(i) => if ToInt(i) > 0 then Some(TruncDiv(bytepos + ToInt(i) - 1, ToInt(i)) * ToInt(i)) else None
              case _ => None)
          case Instr(m) => Some(bytepos + Table(m).bytes)
          case _ => None
  }

  function Label(line: seq<Token>, bytepos: int): seq<(string, int)>
  {
    if Tok(line, 0).Ident? && AfterLabel(line).Some? then [(line[0].name, bytepos)] else []
  }

  function Pass1Line(line: seq<Token>, a: Asm): Asm
    requires RegsOk(line)
  {
    var n := NextPos(line, a.bytepos);
    a.(bytepos := if n.Some? then n.value else a.bytepos, syms := a.syms + Label(line, a.bytepos),
       failed := a.failed || n.None?)
  }

  lemma ArgInRange(arg: Arg, hi: nat, line: seq<Token>, t: nat, syms: seq<(string, int)>, f: Fields)
    requires RegsOk(line) && f.hi < 16 && f.lo < 16
    ensures var p := ParseArg(arg, hi, line, t, syms, f); p.Some? ==> p.value.0.hi < 16 && p.value.0.lo < 16
  {
  }

  lemma FieldsInRange(e: Entry, line: seq<Token>, t: nat, syms: seq<(string, int)>)
    requires RegsOk(line)
    ensures ParseArgs(e, line, t, syms).Some? ==>
      ParseArgs(e, line, t, syms).value.hi < 16 && ParseArgs(e, line, t, syms).value.lo < 16
  {
    hide ParseArg;
    var f := Fields(REG_NONE, REG_NONE, 0);
    ArgInRange(e.arg1, e.hi1, line, t, syms, f);
    var p := ParseArg(e.arg1, e.hi1, line, t, syms, f);
    if p.Some? { ArgInRange(e.arg2, e.hi2, line, p.value.1 + 1, syms, p.value.0); }
  }

  // The bytes pass 2 emits for a line, if it emits any.
  function Emitted(line: seq<Token>, syms: seq<(string, int)>): Option<seq<byte>>
    requires RegsOk(line)
  {
    if line == [] || AfterLabel(line).None? then Some([])
    else
      var t := AfterLabel(line).value;
      match Tok(line, t)
        case Instr(Pos) => Some([])
        case Instr(Align) => Some([])
        case Instr(m) =>
          var f := ParseArgs(Table(m), line, t + 1, syms);
          FieldsInRange(Table(m), line, t + 1, syms);
          if f.None? then None else Some(Encode(Table(m), f.value))
        case _ => Some([])
  }

  // .pos and .align lines are listed at their new address, all others at the old one.
  function ListedPos(line: seq<Token>, bytepos: int, next: int): int
  {
    var t := if AfterLabel(line).Some? then AfterLabel(line).value else 0;
    if Tok(line, t) == Instr(Pos) || Tok(line, t) == Instr(Align) then next else bytepos
  }

  // print_code refuses addresses of more than four hexadecimal digits, except on a line
  // without tokens, where it prints none.
  const LAST_ADDRESS := 0xFFFF

  function Pass2Line(line: seq<Token>, a: Asm): Asm
    requires RegsOk(line)
  {
    var n := NextPos(line, a.bytepos);
    var bs := Emitted(line, a.syms);
    if n.None? then a.(failed := true)
    else if bs.None? || (line != [] && ListedPos(line, a.bytepos, n.value) > LAST_ADDRESS)
    then a.(bytepos := n.value, failed := true)
    else a.(bytepos := n.value, out := a.out + [Listed(ListedPos(line, a.bytepos, n.value), bs.value, line == [])])
  }

  function Pass1(lines: seq<seq<Token>>): Asm
    requires forall i | 0 <= i < |lines| :: RegsOk(lines[i])
  {
    if lines == [] then Asm(0, [], false, [])
    else Pass1Line(lines[|lines|-1], Pass1(lines[..|lines|-1]))
  }

  function Pass2(lines: seq<seq<Token>>, syms: seq<(string, int)>): Asm
    requires forall i | 0 <= i < |lines| :: RegsOk(lines[i])
  {
    if lines == [] then Asm(0, syms, false, [])
    else Pass2Line(lines[|lines|-1], Pass2(lines[..|lines|-1], syms))
  }
}
