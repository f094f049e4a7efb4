// yas.c as it runs: the globals of the assembler as the fields of one object, changed
// token by token and line by line.
module Assembler {
  import opened Common
  import opened Arith
  import opened Words
  import opened Isa
  import opened Yas
  import opened YasFacts
  import opened Assembled

  // Byte k of a number.
  lemma {:induction false} ByteOf(x: int, n: nat, k: nat)
    requires k < n
    ensures Pow256(k) > 0 && ToBytes(x, n)[k] == (x / Pow256(k)) % 256
    decreases n
  {
    if k > 0 {
      ByteOf(x / 256, n - 1, k - 1);
      DivOfMod(x, 256, Pow256(k - 1));
    }
  }

  lemma {:induction false} Pow256Positive(n: nat)
    ensures Pow256(n) > 0
  {
    if n > 0 { Pow256Positive(n - 1); }
  }

  // What storing an operand with fields f does to the code buffer c.
  function Patch(arg: Arg, pos: nat, hi: nat, c: seq<byte>, f: Fields): (r: seq<byte>)
    requires |c| == 10 && pos <= 2 && hi <= 8 && f.hi < 16 && f.lo < 16
    ensures |r| == 10
  {
    match arg
      case RArg => c[pos := if hi == 1 then 16 * f.hi + c[pos] % 16 else 16 * (c[pos] / 16) + f.lo]
      case IArg => c[..pos] + ToBytes(f.imm, hi) + c[pos+hi..]
      case MArg =>
        var c1 := c[pos := 16 * (c[pos] / 16) + f.lo];
        if pos == 1 then c1[..2] + ToBytes(f.imm, 8) else c1
      case NoArg => c
  }

  // Both operands stored after the opcode byte and an empty register byte give the
  // encoding.
  lemma PatchedIsEncoded(m: Mnemonic, c: seq<byte>, f: Fields, f1: Fields)
    requires MnemonicOk(m) && !m.Pos? && !m.Align? && |c| == 10
    requires f.hi < 16 && f.lo < 16 && f1.hi < 16 && f1.lo < 16
    requires var e := Table(m);
      && (e.arg1.RArg? || e.arg1.NoArg? ==> f1.imm == 0)
      && (e.arg1.IArg? || e.arg1.NoArg? ==> f1.hi == f1.lo == REG_NONE)
      && (e.arg1.RArg? ==> f1.lo == REG_NONE) && (e.arg1.MArg? ==> f1.hi == REG_NONE)
      && (e.arg2.NoArg? ==> f == f1)
      && (e.arg2.RArg? ==> f == if e.hi2 == 1 then f1.(hi := f.hi) else f1.(lo := f.lo))
      && (e.arg2.MArg? ==> f.hi == f1.hi)
    ensures var e := Table(m);
      Patch(e.arg2, e.pos2, e.hi2,
              Patch(e.arg1, e.pos1, e.hi1, c[0 := e.code][1 := 0xFF], f1), f)[..e.bytes] == Encode(e, f)
  {
    hide ToBytes;
    assert 16 * REG_NONE + REG_NONE == 0xFF;
  }

  // The same for the operands as they are parsed.
  lemma LineIsEncoded(m: Mnemonic, c: seq<byte>, line: seq<Token>, t: nat, syms: seq<(string, int)>)
    requires MnemonicOk(m) && !m.Pos? && !m.Align? && |c| == 10 && RegsOk(line)
    requires ParseArgs(Table(m), line, t, syms).Some?
    ensures var e := Table(m); var f := ParseArgs(e, line, t, syms).value;
      var f1 := ParseArg(e.arg1, e.hi1, line, t, syms, Fields(REG_NONE, REG_NONE, 0)).value.0;
      && f.hi < 16 && f.lo < 16 && f1.hi < 16 && f1.lo < 16
      && Patch(e.arg2, e.pos2, e.hi2,
              Patch(e.arg1, e.pos1, e.hi1, c[0 := e.code][1 := 0xFF], f1), f)[..e.bytes] == Encode(e, f)
  {
    hide Patch, Encode, FindSymbol;
    var e := Table(m);
    var f0 := Fields(REG_NONE, REG_NONE, 0);
    FieldsInRange(e, line, t, syms);
    ArgInRange(e.arg1, e.hi1, line, t, syms, f0);
    PatchedIsEncoded(m, c, ParseArgs(e, line, t, syms).value, ParseArg(e.arg1, e.hi1, line, t, syms, f0).value.0);
  }

  // An operand parsed to p, stored into buffer c, and tokens consumed up to t.
  ghost predicate Stored(p: Parsed, arg: Arg, pos: nat, hi: nat, c: seq<byte>, c': seq<byte>, t: nat)
    requires |c| == 10 && pos <= 2 && hi <= 8
  {
    p.Some? ==>
      var f := p.value.0;
      t == p.value.1 && f.hi < 16 && f.lo < 16 && c' == Patch(arg, pos, hi, c, f)
  }

  class Assembler {
    var pass: nat
    var bytepos: int
    var tokens: seq<Token>
    var tpos: nat
    const code: array<byte>
    var symbolTable: seq<(string, int)>
    var hitError: bool
    var printed: seq<Listed>

    ghost predicate Valid()
      reads this
    {
      code.Length == 10 && RegsOk(tokens)
    }

    ghost function View(): Asm
      reads this
    {
      Asm(bytepos, symbolTable, hitError, printed)
    }

    constructor ()
      ensures Valid() && fresh(code) && pass == 1 && View() == Asm(0, [], false, [])
    {
      pass, bytepos, tokens, tpos := 1, 0, [], 0;
      code := new byte[10](_ => 0);
      symbolTable, hitError, printed := [], false, [];
    }

    // fail
    method Fail()
      modifies `hitError
      ensures hitError
    {
      hitError := true;
    }

    // add_symbol
    method AddSymbol(name: string, p: int)
      modifies `symbolTable
      ensures symbolTable == old(symbolTable) + [(name, p)]
    {
      symbolTable := symbolTable + [(name, p)];
    }

    // find_symbol
    method LookUp(name: string) returns (pos: int)
      modifies `hitError
      ensures match FindSymbol(symbolTable, name)
        case Some(p) => pos == p && hitError == old(hitError)
        case None => pos == -1 && hitError
    {
      for i := 0 to |symbolTable|
        invariant FindSymbol(symbolTable[i..], name) == FindSymbol(symbolTable, name)
        invariant hitError == old(hitError)
      {
        if symbolTable[i].0 == name {
          return symbolTable[i].1;
        }
      }
      Fail();
      pos := -1;
    }

    // get_reg
    method GetReg(codepos: nat, hi: nat, ghost f: Fields)
      requires Valid() && codepos <= 2 && hi <= 8 && f.hi < 16 && f.lo < 16
      modifies `tpos, `hitError, code
      ensures var p := ParseReg(tokens, old(tpos), hi, f);
        && hitError == (old(hitError) || p.None?)
        && Stored(p, RArg, codepos, hi, old(code[..]), code[..], tpos)
    {
      if !Tok(tokens, tpos).Reg? {
        Fail();
        return;
      }
      var rval := Tok(tokens, tpos).id;
      var c := code[codepos];
      if hi == 1 {
        c := 16 * rval + c % 16;
      } else {
        c := 16 * (c / 16) + rval;
      }
      code[codepos] := c;
      tpos := tpos + 1;
    }

    // The loop of get_num and get_mem: the low bytes of a number.
    method PutNumber(codepos: nat, bytes: nat, val: int)
      requires Valid() && codepos + bytes <= 10
      modifies code
      ensures code[..] == old(code[..codepos]) + ToBytes(val, bytes) + old(code[codepos+bytes..])
    {
      ghost var bs := ToBytes(val, bytes);
      for i := 0 to bytes
        invariant forall k | 0 <= k < 10 && !(codepos <= k < codepos + i) :: code[k] == old(code[k])
        invariant forall k | 0 <= k < i :: code[codepos+k] == bs[k]
      {
        Pow256Positive(i);
        ByteOf(val, bytes, i);
        code[codepos+i] := (val / Pow256(i)) % 256;
      }
      assert code[codepos..codepos+bytes] == bs;
      assert code[..] == code[..codepos] + code[codepos..codepos+bytes] + code[codepos+bytes..];
    }

    // get_num
    method GetNum(codepos: nat, bytes: nat, ghost f: Fields)
      requires Valid() && codepos <= 2 && bytes <= 8 && f.hi < 16 && f.lo < 16
      modifies `tpos, `hitError, code
      ensures var p := ParseNum(tokens, old(tpos), symbolTable, f);
        && hitError == (old(hitError) || p.None?)
        && Stored(p, IArg, codepos, bytes, old(code[..]), code[..], tpos)
    {
      hide ToBytes;
      var val;
      match Tok(tokens, tpos) {
        case Num(i) => val := i;
        case Ident(s) => val := LookUp(s);
        case _ =>
          Fail();
          return;
      }
      PutNumber(codepos, bytes, val);
      tpos := tpos + 1;
    }

    // The register in parentheses, in get_mem.
    method GetBase() returns (rval: nat, ok: bool)
      requires Valid()
      modifies `tpos, `hitError
      ensures ok == (Tok(tokens, old(tpos) + 1).Reg? && Tok(tokens, old(tpos) + 2) == Punct(')'))
      ensures hitError == (old(hitError) || !ok)
      ensures ok ==> tpos == old(tpos) + 3 && rval == Tok(tokens, old(tpos) + 1).id && rval < 15
    {
      rval, ok := REG_NONE, false;
      tpos := tpos + 1;
      if Tok(tokens, tpos).Reg? {
        rval := Tok(tokens, tpos).id;
        tpos := tpos + 1;
      } else {
        Fail();
        return;
      }
      var t := Tok(tokens, tpos);
      if t.Punct? { tpos := tpos + 1; }
      if t != Punct(')') {
        Fail();
        return;
      }
      ok := true;
    }

    // get_mem
    method GetMem(codepos: nat, ghost f: Fields)
      requires Valid() && codepos == 1 && f.hi < 16 && f.lo < 16
      modifies `tpos, `hitError, code
      ensures var p := ParseMem(tokens, old(tpos), symbolTable, f);
        && hitError == (old(hitError) || p.None?)
        && Stored(p, MArg, codepos, 0, old(code[..]), code[..], tpos)
    {
      hide ToBytes, FindSymbol;
      var rval := REG_NONE;
      var val := 0;
      match Tok(tokens, tpos) {
        case Num(i) => val, tpos := i, tpos + 1;
        case Ident(s) =>
          val := LookUp(s);
          tpos := tpos + 1;
        case _ =>
      }
      if Tok(tokens, tpos) == Punct('(') {
        var ok;
        rval, ok := GetBase();
        if !ok { return; }
      }
      code[codepos] := 16 * (code[codepos] / 16) + rval;
      ghost var c := code[..];
      PutNumber(codepos + 1, 8, val);
      assert c[10..] == [];
    }

    // The switch of finish_line on an operand's kind.
    method GetArg(arg: Arg, pos: nat, hi: nat, ghost f: Fields)
      requires Valid() && pos <= 2 && hi <= 8 && (arg.MArg? ==> pos == 1) && f.hi < 16 && f.lo < 16
      modifies `tpos, `hitError, code
      ensures var p := ParseArg(arg, hi, tokens, old(tpos), symbolTable, f);
        && hitError == (old(hitError) || p.None?)
        && Stored(p, arg, pos, hi, old(code[..]), code[..], tpos)
    {
      match arg
        case RArg => GetReg(pos, hi, f);
        case MArg => GetMem(pos, f);
        case IArg => GetNum(pos, hi, f);
        case NoArg =>
    }

    // finish_line on the tokens of a line; exited says that print_code ended the program.
    // After an error the line's own output is of no interest; the error itself, the
    // address and the symbols still are.
    method FinishLine(line: seq<Token>) returns (exited: bool)
      requires Valid() && RegsOk(line) && (pass == 1 || pass == 2)
      modifies this, code
      ensures Valid() && pass == old(pass)
      ensures pass == 1 ==> View() == Pass1Line(line, old(View()))
      ensures pass == 2 ==> Agrees(View(), Pass2Line(line, old(View())))
      ensures exited ==> pass == 2 && hitError
    {
      exited := false;
      hide Emitted, NextPos, ListedPos, AfterLabel;
      LabelShape(line, bytepos);
      EmptyShape(line, bytepos, symbolTable);
      tokens, tpos := line, 0;
      if |line| == 0 {
        if pass > 1 { exited := Print(bytepos, []); }
        return;
      }
      if Tok(tokens, 0).Ident? {
        if Tok(tokens, 1) != Punct(':') {
          Fail();
          return;
        }
        if pass == 1 { AddSymbol(Tok(tokens, 0).name, bytepos); }
        tpos := 2;
        if |line| == 2 {
          if pass > 1 { exited := Print(bytepos, []); }
          return;
        }
      }
      exited := FinishInstruction();
    }

    // The part of finish_line after the label.
    method FinishInstruction() returns (exited: bool)
      requires Valid() && (pass == 1 || pass == 2)
      requires tokens != [] && AfterLabel(tokens) == Some(tpos) && (tpos == 2 ==> |tokens| > 2)
      modifies `tpos, `bytepos, `hitError, `printed, code
      ensures var n := NextPos(tokens, old(bytepos)); var bs := Emitted(tokens, symbolTable);
        && bytepos == (if n.Some? then n.value else old(bytepos))
        && hitError == (old(hitError) || n.None?
                        || (pass == 2 && (bs.None? || ListedPos(tokens, old(bytepos), n.value) > LAST_ADDRESS)))
        && (pass == 1 ==> printed == old(printed))
        && (exited ==> pass == 2 && hitError)
        && (pass == 2 && n.Some? && bs.Some? && ListedPos(tokens, old(bytepos), n.value) <= LAST_ADDRESS ==>
              printed == old(printed) + [Listed(ListedPos(tokens, old(bytepos), n.value), bs.value, false)])
    {
      hide Table, ParseArgs, Encode, ToInt, TruncDiv;
      exited := false;
      var savebytepos := bytepos;
      match Tok(tokens, tpos) {
        case Instr(m) =>
          if m == Pos {
            if !Tok(tokens, tpos + 1).Num? {
              Fail();
              return;
            }
            bytepos := ToInt(Tok(tokens, tpos + 1).ival);
            if pass > 1 { exited := Print(bytepos, []); }
          } else if m == Align {
            if !Tok(tokens, tpos + 1).Num? || ToInt(Tok(tokens, tpos + 1).ival) <= 0 {
              Fail();
              return;
            }
            var a := ToInt(Tok(tokens, tpos + 1).ival);
            bytepos := TruncDiv(bytepos + a - 1, a) * a;
            if pass > 1 { exited := Print(bytepos, []); }
          } else {
            tpos := tpos + 1;
            bytepos := bytepos + Table(m).bytes;
            if pass == 1 { return; }
            exited := Generate(m, savebytepos);
          }
        case _ => Fail();
      }
    }

    // print_code, for a line with the given bytes: it prints the line, or fails and exits.
    method Print(pos: int, bytes: seq<byte>) returns (exited: bool)
      modifies `printed, `hitError
      ensures exited <==> tokens != [] && pos > LAST_ADDRESS
      ensures exited ==> hitError
      ensures !exited ==> hitError == old(hitError) && printed == old(printed) + [Listed(pos, bytes, tokens == [])]
    {
      exited := tokens != [] && pos > LAST_ADDRESS;
      if exited {
        Fail();
        return;
      }
      printed := printed + [Listed(pos, bytes, tokens == [])];
    }

    // The second half of finish_line: operands and output of an instruction.
    method Generate(m: Mnemonic, savebytepos: int) returns (exited: bool)
      requires Valid() && MnemonicOk(m) && !m.Pos? && !m.Align?
      modifies `tpos, `hitError, `printed, code
      ensures var f := ParseArgs(Table(m), tokens, old(tpos), symbolTable);
        && hitError == (old(hitError) || f.None? || (tokens != [] && savebytepos > LAST_ADDRESS))
        && (exited ==> hitError)
        && (f.Some? ==> f.value.hi < 16 && f.value.lo < 16)
        && (f.Some? && (tokens == [] || savebytepos <= LAST_ADDRESS) ==>
              printed == old(printed) + [Listed(savebytepos, Encode(Table(m), f.value), tokens == [])])
    {
      hide Patch, Encode, ParseArg;
      exited := false;
      TableShape(m);
      var instr := Table(m);
      ghost var f0 := Fields(REG_NONE, REG_NONE, 0);
      ghost var c0 := code[..];
      ghost var p := ParseArgs(instr, tokens, tpos, symbolTable);
      if p.Some? { LineIsEncoded(m, c0, tokens, tpos, symbolTable); }
      code[0] := instr.code;
      code[1] := 0xFF;
      assert code[..] == c0[0 := instr.code][1 := 0xFF];
      ghost var p1 := ParseArg(instr.arg1, instr.hi1, tokens, tpos, symbolTable, f0);
      GetArg(instr.arg1, instr.pos1, instr.hi1, f0);
      if instr.arg2 != NoArg {
        if Tok(tokens, tpos) != Punct(',') {
          Fail();
          return;
        }
        tpos := tpos + 1;
        GetArg(instr.arg2, instr.pos2, instr.hi2, if p1.Some? then p1.value.0 else f0);
      }
      ghost var f1 := if p1.Some? then p1.value.0 else f0;
      if f1.hi < 16 && f1.lo < 16 { NoPatch(instr.pos2, instr.hi2, code[..], f1); }
      exited := Print(savebytepos, code[..instr.bytes]);
    }

    // Both passes over a file; false if the assembler exits with an error.
    method Assemble(lines: seq<seq<Token>>) returns (ok: bool)
      requires Valid() && ProgramOk(lines) && pass == 1 && View() == Asm(0, [], false, [])
      modifies this, code
      ensures ok <==> Accepted(lines)
      ensures ok ==> printed == Assembled.Listing(lines) && symbolTable == Symbols(lines)
    {
      hide Pass1Line, Pass2Line;
      assert lines[..0] == [];
      for i := 0 to |lines|
        invariant Valid() && pass == 1 && View() == Pass1(lines[..i])
      {
        AddrStep(lines, i);
        var _ := FinishLine(lines[i]);
      }
      assert lines[..|lines|] == lines;
      if hitError { return false; }
      pass, bytepos := 2, 0;
      NothingOut(lines);
      for i := 0 to |lines|
        invariant Valid() && pass == 2 && Agrees(View(), Pass2(lines[..i], Symbols(lines)))
      {
        AddrStep(lines, i);
        AgreesOn(lines[i], View(), Pass2(lines[..i], Symbols(lines)));
        var exited := FinishLine(lines[i]);
        if exited {
          FailedStays(lines, i + 1, |lines|, Symbols(lines));
          return false;
        }
      }
      PassesAgree(lines, |lines|, Symbols(lines));
      ok := !hitError;
    }
  }

  // Equal up to the output of lines after an error.
  ghost predicate Agrees(a: Asm, b: Asm)
  {
    a.bytepos == b.bytepos && a.syms == b.syms && a.failed == b.failed && (!a.failed ==> a.out == b.out)
  }

  lemma AgreesOn(line: seq<Token>, a: Asm, b: Asm)
    requires RegsOk(line) && Agrees(a, b)
    ensures Agrees(Pass2Line(line, a), Pass2Line(line, b))
  {
  }

  lemma {:induction false} FailedStays(lines: seq<seq<Token>>, i: nat, j: nat, syms: seq<(string, int)>)
    requires ProgramOk(lines) && i <= j <= |lines| && Pass2(lines[..i], syms).failed
    ensures Pass2(lines[..j], syms).failed
    decreases j
  {
    hide NextPos, Emitted, ListedPos;
    if i < j {
      AddrStep(lines, j - 1);
      FailedStays(lines, i, j - 1, syms);
    }
  }

  lemma NoPatch(pos: nat, hi: nat, c: seq<byte>, f: Fields)
    requires |c| == 10 && pos <= 2 && hi <= 8 && f.hi < 16 && f.lo < 16
    ensures Patch(NoArg, pos, hi, c, f) == c
  {
  }

  lemma LabelShape(line: seq<Token>, pos: int)
    requires RegsOk(line)
    ensures AfterLabel(line) == if !Tok(line, 0).Ident? then Some(0) else if Tok(line, 1) == Punct(':') then Some(2)
      else None
    ensures line != [] && AfterLabel(line) == None ==> NextPos(line, pos) == None
  {
  }

  lemma EmptyShape(line: seq<Token>, pos: int, syms: seq<(string, int)>)
    requires RegsOk(line)
    ensures line == [] || (Tok(line, 0).Ident? && Tok(line, 1) == Punct(':') && |line| == 2) ==>
      NextPos(line, pos) == Some(pos) && Emitted(line, syms) == Some([]) && ListedPos(line, pos, pos) == pos
  {
  }

  lemma TableShape(m: Mnemonic)
    requires MnemonicOk(m)
    ensures var e := Table(m);
      && e.pos1 <= 2 && e.hi1 <= 8 && (e.arg1.MArg? ==> e.pos1 == 1)
      && e.pos2 <= 2 && e.hi2 <= 8 && (e.arg2.MArg? ==> e.pos2 == 1) && e.bytes <= 10
  {
  }

  lemma {:induction false} NothingOut(lines: seq<seq<Token>>)
    requires ProgramOk(lines)
    ensures Pass1(lines).out == []
  {
    if lines != [] { NothingOut(lines[..|lines|-1]); }
  }
}
