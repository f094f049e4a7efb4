// What the assembler's two passes promise: one address per line, labels that mean
// their first definition, and instructions the interpreter's fetch takes apart again.
module YasFacts {
  import opened Common
  import opened Words
  import opened Isa
  import opened Execution
  import opened Yas

  predicate ProgramOk(lines: seq<seq<Token>>)
  {
    forall i | 0 <= i < |lines| :: RegsOk(lines[i])
  }

  // The address at which line i starts.
  function Addr(lines: seq<seq<Token>>, i: nat): int
    requires ProgramOk(lines) && i <= |lines|
  {
    Pass1(lines[..i]).bytepos
  }

  lemma AddrStep(lines: seq<seq<Token>>, i: nat)
    requires ProgramOk(lines) && i < |lines|
    ensures lines[..i+1][..i] == lines[..i] && lines[..i+1][i] == lines[i]
    ensures Pass1(lines[..i+1]) == Pass1Line(lines[i], Pass1(lines[..i]))
    ensures forall syms :: Pass2(lines[..i+1], syms) == Pass2Line(lines[i], Pass2(lines[..i], syms))
  {
    assert lines[..i+1][..i] == lines[..i];
    assert lines[..i+1] != [];
  }

  // Both passes give every line the same address, whatever the second pass looks up.
  lemma {:induction false} PassesAgree(lines: seq<seq<Token>>, i: nat, syms: seq<(string, int)>)
    requires ProgramOk(lines) && i <= |lines|
    ensures Pass2(lines[..i], syms).bytepos == Addr(lines, i) && Pass2(lines[..i], syms).syms == syms
  {
    if i == 0 {
      assert lines[..0] == [];
    } else {
      AddrStep(lines, i - 1);
      PassesAgree(lines, i - 1, syms);
    }
  }

  // ---------------------------------------------------------------------- labels

  predicate Defines(line: seq<Token>, name: string)
  {
    Tok(line, 0) == Ident(name) && Tok(line, 1) == Punct(':')
  }

  lemma {:induction false} FindAppend(syms: seq<(string, int)>, more: seq<(string, int)>, name: string)
    ensures FindSymbol(syms + more, name) ==
      if FindSymbol(syms, name).Some? then FindSymbol(syms, name) else FindSymbol(more, name)
  {
    if syms == [] {
      assert syms + more == more;
    } else {
      assert (syms + more)[1..] == syms[1..] + more;
      FindAppend(syms[1..], more, name);
    }
  }

  lemma LabelFound(line: seq<Token>, pos: int, name: string)
    ensures FindSymbol(Label(line, pos), name) == if Defines(line, name) then Some(pos) else None
  {
    var l := Label(line, pos);
    if l != [] {
      assert l[1..] == [];
    }
  }

  // The first of the first i lines that defines the name.
  function FirstDefinition(lines: seq<seq<Token>>, i: nat, name: string): (r: Option<nat>)
    requires i <= |lines|
    ensures r == None <==> forall k | 0 <= k < i :: !Defines(lines[k], name)
    ensures r.Some? ==> r.value < i && Defines(lines[r.value], name)
    ensures r.Some? ==> forall k | 0 <= k < r.value :: !Defines(lines[k], name)
  {
    if i == 0 then None
    else
      var r := FirstDefinition(lines, i - 1, name);
      if r.Some? then r else if Defines(lines[i-1], name) then Some(i - 1) else None
  }

  // The symbol table of pass 1 maps a name to the address of the first line that
  // defines it, and to nothing if no line does.
  lemma {:induction false} LabelIsFirstDefinition(lines: seq<seq<Token>>, i: nat, name: string)
    requires ProgramOk(lines) && i <= |lines|
    ensures FindSymbol(Pass1(lines[..i]).syms, name) ==
      match FirstDefinition(lines, i, name) case None => None case Some(k) => Some(Addr(lines, k))
  {
    hide FindSymbol, NextPos, Label, Defines;
    if i == 0 {
      assert lines[..0] == [];
      FindNothing(name);
    } else {
      AddrStep(lines, i - 1);
      LabelIsFirstDefinition(lines, i - 1, name);
      var a := Pass1(lines[..i-1]);
      FindAppend(a.syms, Label(lines[i-1], a.bytepos), name);
      LabelFound(lines[i-1], a.bytepos, name);
    }
  }

  lemma FindNothing(name: string)
    ensures FindSymbol([], name) == None
  {
  }

  // ----------------------------------------------------------------------- fetch

  predicate IsInstruction(m: Mnemonic) { !m.Data? && !m.Pos? && !m.Align? }

  // Which operands the mnemonic's encoding has room for.
  function Kept(m: Mnemonic, f: Fields): Fields
    requires MnemonicOk(m)
  {
    var hi := Table(m).code / 16;
    Fields(if NeedRegids(hi) then f.hi else REG_NONE, if NeedRegids(hi) then f.lo else REG_NONE,
           if NeedImm(hi) then f.imm else 0)
  }

  lemma EncodedSize(m: Mnemonic, f: Fields)
    requires MnemonicOk(m) && !m.Pos? && !m.Align? && f.hi < 16 && f.lo < 16
    ensures |Encode(Table(m), f)| == Table(m).bytes
  {
  }

  lemma ImmResidue(m: seq<byte>, a: int, imm: int)
    requires CodeAt(m, a, ToBytes(imm, 8))
    ensures WordAt(m, a) == Wrap(imm)
  {
    Pow256Of8();
    FromToResidue(imm, 8);
  }

  lemma Bounds(mem: seq<byte>, a: int, code: seq<byte>)
    requires CodeAt(mem, a, code)
    ensures 0 <= a && a + |code| <= |mem|
  {
  }

  // Where the parts of an instruction are once its encoding is in memory.
  ghost predicate PartsAt(mem: seq<byte>, a: int, code: byte, hi: nat, lo: nat, imm: int)
    requires hi < 16 && lo < 16
  {
    var r, w := if NeedRegids(code / 16) then 1 else 0, if NeedImm(code / 16) then 8 else 0;
    && 0 <= a && a + 1 + r + w <= |mem|
    && mem[a] == code
    && (r == 1 ==> mem[a+1] == 16 * hi + lo)
    && (w == 8 ==> WordAt(mem, a + 1 + r) == Wrap(imm))
  }

  lemma EncodingParts(code: byte, hi: nat, lo: nat, imm: int, mem: seq<byte>, a: int)
    requires hi < 16 && lo < 16
    requires CodeAt(mem, a, [code] + (if NeedRegids(code / 16) then [16 * hi + lo] else [])
                            + (if NeedImm(code / 16) then ToBytes(imm, 8) else []))
    ensures PartsAt(mem, a, code, hi, lo, imm)
  {
    hide ToBytes, WordAt, CodeAt, NeedRegids, NeedImm;
    var regs: seq<byte> := if NeedRegids(code / 16) then [16 * hi + lo] else [];
    var bs := if NeedImm(code / 16) then ToBytes(imm, 8) else [];
    assert [code] + regs + bs == [code] + (regs + bs);
    Bounds(mem, a, [code] + (regs + bs));
    CodeAppend(mem, a, [code], regs + bs);
    CodeAppend(mem, a + 1, regs, bs);
    CodeByte(mem, a, [code], 0);
    if NeedRegids(code / 16) { CodeByte(mem, a + 1, regs, 0); }
    if NeedImm(code / 16) { ImmResidue(mem, a + 1 + |regs|, imm); }
  }

  lemma FetchParts(code: byte, hi: nat, lo: nat, imm: int, mem: seq<byte>, a: word)
    requires hi < 16 && lo < 16 && |mem| < TWO63 && PartsAt(mem, a, code, hi, lo, imm)
    ensures InMem(mem, a, 1)
    ensures var rs, im := NeedRegids(code / 16), NeedImm(code / 16);
      Fetch(mem, a) == Fetched(code / 16, code % 16, if rs then hi else REG_NONE, if rs then lo else REG_NONE, true,
                               if im then Wrap(imm) else 0, true, a + 1 + (if rs then 1 else 0) + (if im then 8 else 0))
  {
    hide WordAt, NeedRegids, NeedImm;
    assert (16 * hi + lo) / 16 == hi && (16 * hi + lo) % 16 == lo;
  }

  // The bytes of an instruction fetch as the opcode and function of its mnemonic, its
  // two registers and its number modulo 2^64, and lead to the next line.
  lemma FetchEncoded(m: Mnemonic, f: Fields, mem: seq<byte>, a: word)
    requires MnemonicOk(m) && IsInstruction(m) && f.hi < 16 && f.lo < 16
    requires CodeAt(mem, a, Encode(Table(m), f)) && |mem| < TWO63
    ensures InMem(mem, a, 1)
    ensures var k := Kept(m, f); var code := Table(m).code;
      Fetch(mem, a) == Fetched(code / 16, code % 16, k.hi, k.lo, true, Wrap(k.imm), true, a + Table(m).bytes)
  {
    hide ToBytes, CodeAt, Fetch, InMem, PartsAt;
    EncodingParts(Table(m).code, f.hi, f.lo, f.imm, mem, a);
    FetchParts(Table(m).code, f.hi, f.lo, f.imm, mem, a);
  }
}
