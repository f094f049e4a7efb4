// One lemma per kind of instruction: what Step does when the bytes of the instruction
// are in memory at the pc.
module Execution {
  import opened Common
  import opened Words
  import opened Isa

  // Encoded instructions: an opcode byte, perhaps a register byte, perhaps eight
  // immediate bytes.
  function Plain(code: byte): seq<byte> { [code] }
  function WithRegs(code: byte, regs: byte): seq<byte> { [code, regs] }
  function WithImm(code: byte, imm: word): seq<byte> { [code] + ToBytes(imm, 8) }
  function WithBoth(code: byte, regs: byte, imm: word): seq<byte> { [code, regs] + ToBytes(imm, 8) }

  ghost predicate CodeAt(m: seq<byte>, a: int, code: seq<byte>)
  {
    0 <= a && a + |code| <= |m| && m[a..a+|code|] == code
  }

  lemma CodeByte(m: seq<byte>, a: int, code: seq<byte>, i: int)
    requires CodeAt(m, a, code) && 0 <= i < |code|
    ensures m[a+i] == code[i]
  {
    assert m[a..a+|code|][i] == m[a+i];
  }

  lemma CodePart(m: seq<byte>, a: int, code: seq<byte>, i: int, n: int)
    requires CodeAt(m, a, code) && 0 <= i && 0 <= n && i + n <= |code|
    ensures CodeAt(m, a + i, code[i..i+n])
  {
    var x, y := m[a+i..a+i+n], code[i..i+n];
    forall k | 0 <= k < n ensures x[k] == y[k] {
      CodeByte(m, a, code, i + k);
    }
  }

  lemma CodeAppend(m: seq<byte>, a: int, x: seq<byte>, y: seq<byte>)
    requires CodeAt(m, a, x + y)
    ensures CodeAt(m, a, x) && CodeAt(m, a + |x|, y)
  {
    CodePart(m, a, x + y, 0, |x|);
    CodePart(m, a, x + y, |x|, |y|);
    assert (x + y)[0..|x|] == x && (x + y)[|x|..|x|+|y|] == y;
  }

  lemma CodeFrame(m: seq<byte>, m': seq<byte>, a: int, code: seq<byte>)
    requires CodeAt(m, a, code) && |m'| == |m| && forall i | a <= i < a + |code| :: m'[i] == m[i]
    ensures CodeAt(m', a, code)
  {
    assert m'[a..a+|code|] == m[a..a+|code|];
  }

  lemma ImmAt(m: seq<byte>, a: int, imm: word)
    requires CodeAt(m, a, ToBytes(imm, 8))
    ensures WordAt(m, a) == imm
  {
    Pow256Of8();
    FromToBytes(imm, 8);
  }

  // The fetch of step_state recovers every field of an encoded instruction.
  lemma FetchRegs(m: seq<byte>, a: word, code: byte, regs: byte)
    requires CodeAt(m, a, WithRegs(code, regs)) && |m| < TWO63
    requires NeedRegids(code / 16) && !NeedImm(code / 16)
    ensures InMem(m, a, 1)
    ensures Fetch(m, a) == Fetched(code / 16, code % 16, regs / 16, regs % 16, true, 0, true, a + 2)
  {
    CodeByte(m, a, WithRegs(code, regs), 0);
    CodeByte(m, a, WithRegs(code, regs), 1);
  }

  lemma FetchImm(m: seq<byte>, a: word, code: byte, imm: word)
    requires CodeAt(m, a, WithImm(code, imm)) && |m| < TWO63
    requires !NeedRegids(code / 16) && NeedImm(code / 16)
    ensures InMem(m, a, 1)
    ensures Fetch(m, a) == Fetched(code / 16, code % 16, REG_NONE, REG_NONE, true, imm, true, a + 9)
  {
    hide ToBytes, WordAt;
    CodeByte(m, a, WithImm(code, imm), 0);
    CodePart(m, a, WithImm(code, imm), 1, 8);
    assert WithImm(code, imm)[1..9] == ToBytes(imm, 8);
    ImmAt(m, a + 1, imm);
  }

  lemma FetchBoth(m: seq<byte>, a: word, code: byte, regs: byte, imm: word)
    requires CodeAt(m, a, WithBoth(code, regs, imm)) && |m| < TWO63
    requires NeedRegids(code / 16) && NeedImm(code / 16)
    ensures InMem(m, a, 1)
    ensures Fetch(m, a) == Fetched(code / 16, code % 16, regs / 16, regs % 16, true, imm, true, a + 10)
  {
    hide ToBytes, WordAt;
    CodeByte(m, a, WithBoth(code, regs, imm), 0);
    CodeByte(m, a, WithBoth(code, regs, imm), 1);
    CodePart(m, a, WithBoth(code, regs, imm), 2, 8);
    assert WithBoth(code, regs, imm)[2..10] == ToBytes(imm, 8);
    ImmAt(m, a + 2, imm);
  }

  lemma FetchPlain(m: seq<byte>, a: word, code: byte)
    requires CodeAt(m, a, Plain(code)) && |m| < TWO63
    requires !NeedRegids(code / 16) && !NeedImm(code / 16)
    ensures InMem(m, a, 1)
    ensures Fetch(m, a) == Fetched(code / 16, code % 16, REG_NONE, REG_NONE, true, 0, true, a + 1)
  {
    CodeByte(m, a, Plain(code), 0);
  }

  // --------------------------------------------------------- per instruction

  // Register id 15 reads as 0 and is not written.
  lemma StepAlu(s: State, fn: int, ra: int, rb: int)
    requires StateOk(s) && 0 <= fn < 16 && 0 <= ra < 16 && 0 <= rb < 16
    requires CodeAt(s.m, s.pc, WithRegs(16 * I_ALU + fn, 16 * ra + rb))
    ensures var a, b := GetReg(s, ra), GetReg(s, rb);
      Step(s) == (SetReg(s, rb, ComputeAlu(fn, a, b)).(cc := ComputeCC(fn, a, b), pc := s.pc + 2), AOK)
    ensures s.pc + 2 < TWO63
  {
    hide Fetch, ComputeAlu, ComputeCC;
    FetchRegs(s.m, s.pc, 16 * I_ALU + fn, 16 * ra + rb);
  }

  lemma StepJmp(s: State, cond: int, dest: word)
    requires StateOk(s) && 0 <= cond < 16
    requires CodeAt(s.m, s.pc, WithImm(16 * I_JMP + cond, dest))
    ensures s.pc + 9 < TWO63
    ensures Step(s) == (s.(pc := if CondHolds(s.cc, cond) then dest else s.pc + 9), AOK)
  {
    hide Fetch, CondHolds;
    FetchImm(s.m, s.pc, 16 * I_JMP + cond, dest);
  }

  lemma StepIrmovq(s: State, imm: word, rb: int)
    requires StateOk(s) && 0 <= rb < 15
    requires CodeAt(s.m, s.pc, WithBoth(16 * I_IRMOVQ, 16 * REG_NONE + rb, imm))
    ensures s.pc + 10 < TWO63
    ensures Step(s) == (s.(r := s.r[rb := imm], pc := s.pc + 10), AOK)
  {
    hide Fetch, ToBytes, CodeAt;
    FetchBoth(s.m, s.pc, 16 * I_IRMOVQ, 16 * REG_NONE + rb, imm);
  }

  // rb is 15 for an operand without a base register.
  lemma StepMrmovq(s: State, imm: word, ra: int, rb: int)
    requires StateOk(s) && 0 <= ra < 15 && 0 <= rb < 16
    requires CodeAt(s.m, s.pc, WithBoth(16 * I_MRMOVQ, 16 * ra + rb, imm))
    requires Wrap(imm + GetReg(s, rb)) + 8 <= |s.m|
    ensures s.pc + 10 < TWO63
    ensures Step(s) == (s.(r := s.r[ra := WordAt(s.m, Wrap(imm + GetReg(s, rb)))], pc := s.pc + 10), AOK)
  {
    hide Fetch, WordAt, ToBytes, CodeAt;
    FetchBoth(s.m, s.pc, 16 * I_MRMOVQ, 16 * ra + rb, imm);
  }

  lemma StepRmmovq(s: State, imm: word, ra: int, rb: int)
    requires StateOk(s) && 0 <= ra < 15 && 0 <= rb < 16
    requires CodeAt(s.m, s.pc, WithBoth(16 * I_RMMOVQ, 16 * ra + rb, imm))
    requires Wrap(imm + GetReg(s, rb)) + 8 <= |s.m|
    ensures s.pc + 10 < TWO63
    ensures Step(s) == (s.(m := SetWord(s.m, Wrap(imm + GetReg(s, rb)), s.r[ra]), pc := s.pc + 10), AOK)
  {
    hide Fetch, SetWord, ToBytes, CodeAt;
    FetchBoth(s.m, s.pc, 16 * I_RMMOVQ, 16 * ra + rb, imm);
  }

  lemma StepPushq(s: State, ra: int)
    requires StateOk(s) && 0 <= ra < 15
    requires CodeAt(s.m, s.pc, WithRegs(16 * I_PUSHQ, 16 * ra + REG_NONE))
    requires 8 <= s.r[RSP] && s.r[RSP] <= |s.m|
    ensures s.pc + 2 < TWO63
    ensures Step(s) == (s.(r := s.r[RSP := s.r[RSP] - 8], m := SetWord(s.m, s.r[RSP] - 8, s.r[ra]), pc := s.pc + 2),
      AOK)
  {
    hide Fetch, SetWord, ToBytes, CodeAt;
    FetchRegs(s.m, s.pc, 16 * I_PUSHQ, 16 * ra + REG_NONE);
  }

  lemma StepPopq(s: State, ra: int)
    requires StateOk(s) && 0 <= ra < 15
    requires CodeAt(s.m, s.pc, WithRegs(16 * I_POPQ, 16 * ra + REG_NONE))
    requires s.r[RSP] + 8 <= |s.m|
    ensures s.pc + 2 < TWO63
    ensures Step(s) == (s.(r := s.r[RSP := s.r[RSP] + 8][ra := WordAt(s.m, s.r[RSP])], pc := s.pc + 2), AOK)
  {
    hide Fetch, WordAt, ToBytes, CodeAt;
    FetchRegs(s.m, s.pc, 16 * I_POPQ, 16 * ra + REG_NONE);
  }

  lemma StepCall(s: State, dest: word)
    requires StateOk(s)
    requires CodeAt(s.m, s.pc, WithImm(16 * I_CALL, dest))
    requires 8 <= s.r[RSP] && s.r[RSP] <= |s.m|
    ensures s.pc + 9 < TWO63
    ensures Step(s) == (s.(r := s.r[RSP := s.r[RSP] - 8], m := SetWord(s.m, s.r[RSP] - 8, s.pc + 9), pc := dest), AOK)
  {
    hide Fetch, SetWord, ToBytes, CodeAt;
    FetchImm(s.m, s.pc, 16 * I_CALL, dest);
  }

  lemma StepRet(s: State)
    requires StateOk(s)
    requires CodeAt(s.m, s.pc, Plain(16 * I_RET))
    requires s.r[RSP] + 8 <= |s.m|
    ensures Step(s) == (s.(r := s.r[RSP := s.r[RSP] + 8], pc := WordAt(s.m, s.r[RSP])), AOK)
  {
    hide Fetch, WordAt, ToBytes, CodeAt;
    FetchPlain(s.m, s.pc, 16 * I_RET);
  }

  // rrmovq and the conditional moves
  lemma StepCmov(s: State, cond: int, ra: int, rb: int)
    requires StateOk(s) && 0 <= cond < 16 && 0 <= ra < 15 && 0 <= rb < 15
    requires CodeAt(s.m, s.pc, WithRegs(16 * I_RRMOVQ + cond, 16 * ra + rb))
    ensures s.pc + 2 < TWO63
    ensures Step(s) == (s.(r := if CondHolds(s.cc, cond) then s.r[rb := s.r[ra]] else s.r, pc := s.pc + 2), AOK)
  {
    hide Fetch, CondHolds;
    FetchRegs(s.m, s.pc, 16 * I_RRMOVQ + cond, 16 * ra + rb);
  }

  lemma StepIaddq(s: State, imm: word, rb: int)
    requires StateOk(s) && 0 <= rb < 15
    requires CodeAt(s.m, s.pc, WithBoth(16 * I_IADDQ, 16 * REG_NONE + rb, imm))
    ensures s.pc + 10 < TWO63
    ensures Step(s) == (s.(r := s.r[rb := Wrap(s.r[rb] + imm)], cc := ComputeCC(A_ADD, imm, s.r[rb]),
      pc := s.pc + 10), AOK)
  {
    hide Fetch, ToBytes, CodeAt, ComputeCC;
    FetchBoth(s.m, s.pc, 16 * I_IADDQ, 16 * REG_NONE + rb, imm);
  }

  lemma StepHaltNop(s: State)
    requires StateOk(s)
    ensures CodeAt(s.m, s.pc, Plain(16 * I_HALT)) ==> Step(s) == (s, HLT)
    ensures CodeAt(s.m, s.pc, Plain(16 * I_NOP)) ==> s.pc + 1 < TWO63 && Step(s) == (s.(pc := s.pc + 1), AOK)
  {
    hide Fetch;
    if CodeAt(s.m, s.pc, Plain(16 * I_HALT)) { FetchPlain(s.m, s.pc, 16 * I_HALT); }
    if CodeAt(s.m, s.pc, Plain(16 * I_NOP)) { FetchPlain(s.m, s.pc, 16 * I_NOP); }
  }

  // ------------------------------------------------------- when a step goes wrong

  // The bytes of an instruction with this itype.
  function Length(hi: int): int
  {
    if hi == I_IRMOVQ || hi == I_RMMOVQ || hi == I_MRMOVQ || hi == I_IADDQ then 10
    else if hi == I_JMP || hi == I_CALL then 9
    else if hi == I_RRMOVQ || hi == I_ALU || hi == I_PUSHQ || hi == I_POPQ then 2
    else 1
  }

  // The register ids it has to have.
  predicate RealRegisters(hi: int, ra: int, rb: int)
  {
    && (hi == I_RRMOVQ || hi == I_RMMOVQ || hi == I_MRMOVQ || hi == I_PUSHQ || hi == I_POPQ ==> ra < REG_NONE)
    && (hi == I_RRMOVQ || hi == I_IRMOVQ || hi == I_IADDQ ==> rb < REG_NONE)
  }

  predicate HasRegisters(hi: int) { Length(hi) == 2 || Length(hi) == 10 }

  // The stack pointer a word lower and a word higher.
  function Below(s: State): word
    requires StateOk(s)
  {
    var sp: int := s.r[RSP];
    Wrap(sp - 8)
  }

  function Above(s: State): word
    requires StateOk(s)
  {
    var sp: int := s.r[RSP];
    Wrap(sp + 8)
  }

  // The address of the word it reads or writes, if it does.
  function Touches(s: State, hi: int): Option<word>
    requires StateOk(s) && InMem(s.m, s.pc, 1) && s.pc + Length(hi) <= |s.m|
  {
    if hi == I_RMMOVQ || hi == I_MRMOVQ
    then Some(Wrap(WordAt(s.m, s.pc + 2) + GetReg(s, s.m[s.pc+1] % 16)))
    else if hi == I_CALL || hi == I_PUSHQ then Some(Below(s))
    else if hi == I_RET || hi == I_POPQ then Some(s.r[RSP])
    else None
  }

  // The instruction at the pc lies in memory and names real registers.
  predicate WellFetched(s: State, hi: int)
    requires StateOk(s)
  {
    && InMem(s.m, s.pc, 1) && s.pc + Length(hi) <= |s.m|
    && (HasRegisters(hi) ==> RealRegisters(hi, s.m[s.pc+1] / 16, s.m[s.pc+1] % 16))
  }

  // The word it touches is in memory.
  predicate DataInside(s: State, hi: int)
    requires StateOk(s) && WellFetched(s, hi)
  {
    Touches(s, hi).Some? ==> InMem(s.m, Touches(s, hi).value, 8)
  }

  function Itype(s: State): int { if InMem(s.m, s.pc, 1) then s.m[s.pc] / 16 else 16 }

  // The fields of an instruction in terms of its bytes.
  lemma FetchedBytes(s: State, hi: int)
    requires StateOk(s) && InMem(s.m, s.pc, 1) && hi == Itype(s)
    ensures var f, n := Fetch(s.m, s.pc), s.pc + Length(hi);
      && f.hi0 == hi && (f.ok1 <==> !HasRegisters(hi) || s.pc + 2 <= |s.m|)
      && (f.okc <==> Length(hi) < 9 || n <= |s.m|)
      && (HasRegisters(hi) && f.ok1 ==> f.hi1 == s.m[s.pc+1] / 16 && f.lo1 == s.m[s.pc+1] % 16)
      && (Length(hi) == 10 && n <= |s.m| ==> f.cval == WordAt(s.m, s.pc + 2))
  {
    hide WordAt;
  }

  // The exact outcome of any step.  It goes on exactly if the instruction is known and
  // well fetched and the word it touches is in memory.  It halts exactly at halt.
  lemma StepOutcome(s: State)
    requires StateOk(s)
    ensures var st, hi := Step(s).1, Itype(s);
      && (st == HLT <==> hi == I_HALT)
      && (st == AOK <==> 1 <= hi <= 12 && WellFetched(s, hi) && DataInside(s, hi))
  {
    hide Fetch, WordAt, SetWord, ComputeAlu, ComputeCC, CondHolds, SetReg;
    if InMem(s.m, s.pc, 1) { FetchedBytes(s, Itype(s)); }
  }

  // An error changes nothing but %rsp, and that only if the word touched by call, pushq
  // or popq is not in memory.
  lemma ErrorKeeps(s: State)
    requires StateOk(s)
    ensures var (t, st), hi := Step(s), Itype(s);
      st != AOK ==>
        t == if st == ADR && 1 <= hi <= 12 && WellFetched(s, hi) && (hi == I_CALL || hi == I_PUSHQ || hi == I_POPQ)
             then s.(r := s.r[RSP := if hi == I_POPQ then Above(s) else Below(s)]) else s
  {
    hide Fetch, WordAt, SetWord, ComputeAlu, ComputeCC, CondHolds;
    if InMem(s.m, s.pc, 1) { FetchedBytes(s, Itype(s)); }
  }

  // Which error it is: outside memory the opcode, the register byte, the number of a jump
  // or call and the word touched give ADR; everything else gives INS, the number of the
  // other instructions among it.
  lemma StepError(s: State)
    requires StateOk(s) && Step(s).1 != AOK && Step(s).1 != HLT
    ensures var hi := Itype(s);
      Step(s).1 == ADR <==>
        || !InMem(s.m, s.pc, 1)
        || (1 <= hi <= 12 && Length(hi) == 9 && s.pc + 9 > |s.m|)
        || (1 <= hi <= 12 && HasRegisters(hi) && s.pc + 2 > |s.m|)
        || (1 <= hi <= 12 && WellFetched(s, hi))
  {
    hide Fetch, WordAt, SetWord, ComputeAlu, ComputeCC, CondHolds;
    if InMem(s.m, s.pc, 1) { FetchedBytes(s, Itype(s)); }
  }

  // popq undoes pushq: the register popped gets the value pushed, and %rsp is back where
  // it was unless it is itself the register popped.
  lemma PushThenPop(s: State, ra: int, rb: int)
    requires StateOk(s) && 0 <= ra < 15 && 0 <= rb < 15
    requires CodeAt(s.m, s.pc, WithRegs(16 * I_PUSHQ, 16 * ra + REG_NONE) + WithRegs(16 * I_POPQ, 16 * rb + REG_NONE))
    requires 8 <= s.r[RSP] <= |s.m| && (s.pc + 4 <= s.r[RSP] - 8 || s.r[RSP] <= s.pc)
    ensures Run(s, 2).1 == AOK
    ensures Run(s, 2).0 == s.(r := s.r[rb := s.r[ra]], m := SetWord(s.m, s.r[RSP] - 8, s.r[ra]), pc := s.pc + 4)
  {
    hide Step, Run, CodeAt, SetWord, WordAt;
    var push, pop := WithRegs(16 * I_PUSHQ, 16 * ra + REG_NONE), WithRegs(16 * I_POPQ, 16 * rb + REG_NONE);
    CodeAppend(s.m, s.pc, push, pop);
    StepPushq(s, ra);
    var s1 := Step(s).0;
    SetWordAt(s.m, s.r[RSP] - 8, s.r[ra]);
    CodeFrame(s.m, s1.m, s.pc + 2, pop);
    StepPopq(s1, rb);
    var s2 := Step(s1).0;
    RunOne(s, 2);
    RunOne(s1, 1);
    RunNone(s2);
    assert s2.r == s.r[rb := s.r[ra]];
  }

  // ret undoes call, whatever is at the target.
  lemma CallThenRet(s: State, dest: word)
    requires StateOk(s) && CodeAt(s.m, s.pc, WithImm(16 * I_CALL, dest))
    requires 8 <= s.r[RSP] <= |s.m|
    requires CodeAt(s.m, dest, Plain(16 * I_RET)) && (dest + 1 <= s.r[RSP] - 8 || s.r[RSP] <= dest)
    ensures s.pc + 9 < TWO63 && Run(s, 2).1 == AOK
    ensures Run(s, 2).0 == s.(m := SetWord(s.m, s.r[RSP] - 8, s.pc + 9), pc := s.pc + 9)
  {
    hide Step, Run, SetWord, WordAt, WithImm;
    StepCall(s, dest);
    var s1 := Step(s).0;
    SetWordAt(s.m, s.r[RSP] - 8, s.pc + 9);
    CodeFrame(s.m, s1.m, dest, Plain(16 * I_RET));
    StepRet(s1);
    var s2 := Step(s1).0;
    RunOne(s, 2);
    RunOne(s1, 1);
    RunNone(s2);
    assert s2.r == s.r;
  }

  lemma RunOne(s: State, k: nat)
    requires StateOk(s) && k > 0 && Step(s).1 == AOK
    ensures Run(s, k) == Run(Step(s).0, k - 1)
  {
    hide Step;
  }

  lemma RunNone(s: State)
    requires StateOk(s)
    ensures Run(s, 0) == (s, AOK)
  {
  }
}
