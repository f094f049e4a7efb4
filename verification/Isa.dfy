// The Y86-64 interpreter of archlab-handout/sim/misc/isa.c: memory, condition codes
// and one instruction step.
module Isa {
  import opened Common
  import opened Words

  // isa.h: register, instruction and function codes
  const RAX := 0
  const RCX := 1
  const RDX := 2
  const RSP := 4
  const RSI := 6
  const RDI := 7
  const R8 := 8
  const R9 := 9
  const REG_NONE := 15

  const I_HALT := 0
  const I_NOP := 1
  const I_RRMOVQ := 2
  const I_IRMOVQ := 3
  const I_RMMOVQ := 4
  const I_MRMOVQ := 5
  const I_ALU := 6
  const I_JMP := 7
  const I_CALL := 8
  const I_RET := 9
  const I_PUSHQ := 10
  const I_POPQ := 11
  const I_IADDQ := 12

  const A_ADD := 0
  const A_SUB := 1
  const A_AND := 2
  const A_XOR := 3

  const C_YES := 0
  const C_LE := 1
  const C_L := 2
  const C_E := 3
  const C_NE := 4
  const C_GE := 5
  const C_G := 6

  datatype CC = CC(zf: bool, sf: bool, of: bool)
  datatype Stat = AOK | HLT | ADR | INS
  datatype State = State(pc: word, r: seq<word>, m: seq<byte>, cc: CC)

  // A state as new_state makes it: 15 registers and a memory an int can measure.
  predicate StateOk(s: State)
  {
    |s.r| == 15 && |s.m| < 0x8000_0000
  }

  // --------------------------------------------------------------------- memory

  predicate InMem(m: seq<byte>, pos: word, n: int) { pos < TWO63 && pos + n <= |m| }

  function WordAt(m: seq<byte>, pos: int): (w: word)
    requires 0 <= pos && pos + 8 <= |m|
  {
    FromBytesRange(m[pos..pos+8]);
    Pow256Of8();
    FromBytes(m[pos..pos+8])
  }

  function SetWord(m: seq<byte>, pos: int, v: word): (m': seq<byte>)
    requires 0 <= pos && pos + 8 <= |m|
    ensures |m'| == |m|
  {
    m[..pos] + ToBytes(v, 8) + m[pos+8..]
  }

  lemma SetWordAt(m: seq<byte>, pos: int, v: word)
    requires 0 <= pos && pos + 8 <= |m|
    ensures WordAt(SetWord(m, pos, v), pos) == v
    ensures forall i | 0 <= i < |m| && !(pos <= i < pos + 8) :: SetWord(m, pos, v)[i] == m[i]
  {
    Pow256Of8();
    FromToBytes(v, 8);
    assert SetWord(m, pos, v)[pos..pos+8] == ToBytes(v, 8);
  }

  // Agreeing bytes make agreeing words.
  lemma WordFrame(m: seq<byte>, m': seq<byte>, pos: int)
    requires 0 <= pos && pos + 8 <= |m| && |m| == |m'|
    requires forall i | pos <= i < pos + 8 :: m'[i] == m[i]
    ensures WordAt(m', pos) == WordAt(m, pos)
  {
    assert m'[pos..pos+8] == m[pos..pos+8];
  }

  // ------------------------------------------------------------- ALU and branches

  function ComputeAlu(op: int, a: word, b: word): word
  {
    if op == A_ADD then Wrap(a + b)
    else if op == A_SUB then Wrap(b - a)
    else if op == A_AND then And(a, b)
    else if op == A_XOR then Xor(a, b)
    else 0
  }

  function ComputeCC(op: int, a: word, b: word): CC
  {
    var val := Signed(ComputeAlu(op, a, b));
    var sa, sb := Signed(a), Signed(b);
    var ovf :=
      if op == A_ADD then (sa < 0) == (sb < 0) && (val < 0) != (sa < 0)
      else if op == A_SUB then (sa > 0) == (sb < 0) && (val < 0) != (sb < 0)
      else false;
    CC(val == 0, val < 0, ovf)
  }

  function CondHolds(cc: CC, cond: int): bool
  {
    var less := cc.sf != cc.of;
    if cond == C_YES then true
    else if cond == C_LE then less || cc.zf
    else if cond == C_L then less
    else if cond == C_E then cc.zf
    else if cond == C_NE then !cc.zf
    else if cond == C_GE then !less
    else if cond == C_G then !less && !cc.zf
    else false
  }

  // The overflow flag means that the exact signed result does not fit a word.
  lemma OverflowIsExact(a: word, b: word)
    ensures ComputeCC(A_ADD, a, b).of <==> !(-TWO63 <= Signed(a) + Signed(b) < TWO63)
    ensures ComputeCC(A_SUB, a, b).of <==> !(-TWO63 <= Signed(b) - Signed(a) < TWO63)
  {
    WrapNear(a + b);
    WrapNear(b - a);
  }

  lemma WrapNear(x: int)
    requires -TWO64 < x < 2 * TWO64
    ensures Wrap(x) == if x < 0 then x + TWO64 else if x < TWO64 then x else x - TWO64
  {
  }

  // What each conditional jump or move decides after subq %ra, %rb: the exact signed
  // order of the two registers, overflow or not.
  lemma CondAfterSub(a: word, b: word)
    ensures var cc := ComputeCC(A_SUB, a, b);
      && (CondHolds(cc, C_LE) <==> Signed(b) <= Signed(a))
      && (CondHolds(cc, C_L) <==> Signed(b) < Signed(a))
      && (CondHolds(cc, C_E) <==> b == a)
      && (CondHolds(cc, C_NE) <==> b != a)
      && (CondHolds(cc, C_GE) <==> Signed(b) >= Signed(a))
      && (CondHolds(cc, C_G) <==> Signed(b) > Signed(a))
  {
    WrapNear(b - a);
  }

  // And after andq %ra, %ra: the sign of the register.
  lemma CondAfterTest(a: word)
    ensures var cc := ComputeCC(A_AND, a, a);
      && ComputeAlu(A_AND, a, a) == a
      && (CondHolds(cc, C_LE) <==> Signed(a) <= 0)
      && (CondHolds(cc, C_E) <==> a == 0)
      && (CondHolds(cc, C_G) <==> Signed(a) > 0)
  {
    AndSelf(a);
  }

  // And after andq and xorq of any two registers: what the result is, bit by bit, and what
  // the flags and the conditions then say of the operands.
  lemma CondAfterLogic(op: int, a: word, b: word)
    requires op == A_AND || op == A_XOR
    ensures var v, cc := ComputeAlu(op, a, b), ComputeCC(op, a, b);
      && (forall i | 0 <= i < 64 ::
            Bit(v, i) == 1 <==> if op == A_AND then Bit(a, i) == 1 && Bit(b, i) == 1 else Bit(a, i) != Bit(b, i))
      && (cc.zf <==> if op == A_AND then NoCommonBit(a, b) else a == b)
      && (cc.sf <==>
            if op == A_AND then Signed(a) < 0 && Signed(b) < 0 else (Signed(a) < 0) != (Signed(b) < 0))
      && !cc.of
      && (CondHolds(cc, C_E) <==> Signed(v) == 0) && (CondHolds(cc, C_NE) <==> Signed(v) != 0)
      && (CondHolds(cc, C_L) <==> Signed(v) < 0) && (CondHolds(cc, C_LE) <==> Signed(v) <= 0)
      && (CondHolds(cc, C_G) <==> Signed(v) > 0) && (CondHolds(cc, C_GE) <==> Signed(v) >= 0)
  {
    hide Bit, And, Xor;
    var v := ComputeAlu(op, a, b);
    forall i | 0 <= i < 64
      ensures Bit(v, i) == 1 <==> if op == A_AND then Bit(a, i) == 1 && Bit(b, i) == 1 else Bit(a, i) != Bit(b, i)
    {
      BitwiseAt(a, b, i);
    }
    SignBit(v);
    SignBit(a);
    SignBit(b);
    if op == A_XOR {
      if v == 0 {
        forall i | 0 <= i < 64 ensures Bit(a, i) == Bit(b, i) { ZeroBit(i); }
        SameWord(a, b);
      } else if a == b {
        XorSelf(a);
      }
    } else if NoCommonBit(a, b) {
      forall i | 0 <= i < 64 ensures Bit(v, i) == Bit(0, i) { ZeroBit(i); }
      SameWord(v, 0);
    } else {
      var i :| 0 <= i < 64 && Bit(a, i) == 1 && Bit(b, i) == 1;
      ZeroBit(i);
      assert Bit(v, i) == 1;
    }
  }

  // Function codes without a meaning: OPq computes 0, and nothing is jumped or moved.
  lemma UnknownCodes(op: int, cond: int, a: word, b: word, cc: CC)
    requires !(0 <= op <= 3) && !(0 <= cond <= 6)
    ensures ComputeAlu(op, a, b) == 0 && ComputeCC(op, a, b) == CC(true, false, false) && !CondHolds(cc, cond)
  {
  }

  predicate NoCommonBit(a: word, b: word)
  {
    forall i | 0 <= i < 64 :: !(Bit(a, i) == 1 && Bit(b, i) == 1)
  }

  // ------------------------------------------------------------------- one step

  function GetReg(s: State, id: int): word
    requires StateOk(s)
  {
    if 0 <= id < REG_NONE then s.r[id] else 0
  }

  function SetReg(s: State, id: int, v: word): (s': State)
    requires StateOk(s)
    ensures StateOk(s')
  {
    if 0 <= id < REG_NONE then s.(r := s.r[id := v]) else s
  }

  predicate NeedRegids(hi: int)
  {
    hi == I_RRMOVQ || hi == I_ALU || hi == I_PUSHQ || hi == I_POPQ || hi == I_IRMOVQ || hi == I_RMMOVQ
    || hi == I_MRMOVQ || hi == I_IADDQ
  }

  predicate NeedImm(hi: int)
  {
    hi == I_IRMOVQ || hi == I_RMMOVQ || hi == I_MRMOVQ || hi == I_JMP || hi == I_CALL || hi == I_IADDQ
  }

  // The fields step_state fetches: itype and function, register ids, immediate,
  // whether each read succeeded, and the fall-through pc.
  datatype Fetched = Fetched(hi0: nat, lo0: nat, hi1: nat, lo1: nat, ok1: bool, cval: word, okc: bool, next: nat)

  function Fetch(m: seq<byte>, pc: word): Fetched
    requires InMem(m, pc, 1)
  {
    var hi0, lo0 := m[pc] / 16, m[pc] % 16;
    var p1 := pc + 1;
    var ok1 := !NeedRegids(hi0) || InMem(m, Wrap(p1), 1);
    var byte1 := if NeedRegids(hi0) && ok1 then m[Wrap(p1)] else 0;
    var hi1 := if NeedRegids(hi0) then byte1 / 16 else REG_NONE;
    var lo1 := if NeedRegids(hi0) then byte1 % 16 else REG_NONE;
    var p2 := if NeedRegids(hi0) then p1 + 1 else p1;
    var okc := !NeedImm(hi0) || InMem(m, Wrap(p2), 8);
    var cval := if NeedImm(hi0) && okc then WordAt(m, Wrap(p2)) else 0;
    var next := if NeedImm(hi0) then p2 + 8 else p2;
    Fetched(hi0, lo0, hi1, lo1, ok1, cval, okc, next)
  }

  // A store either changes eight bytes or fails with the given registers.
  function StoreTo(s: State, pos: word, v: word, next: word): (State, Stat)
    requires StateOk(s)
  {
    if InMem(s.m, pos, 8) then (s.(m := SetWord(s.m, pos, v), pc := next), AOK) else (s, ADR)
  }

  // step_state: the next state and the status; on an error the state is what the
  // instruction had changed by then.
  function Step(s: State): (r: (State, Stat))
    requires StateOk(s)
    ensures StateOk(r.0) && |r.0.m| == |s.m|
  {
    if !InMem(s.m, s.pc, 1) then (s, ADR)
    else
      var f := Fetch(s.m, s.pc);
      var next := Wrap(f.next);
      if f.hi0 == I_NOP then (s.(pc := next), AOK)
      else if f.hi0 == I_HALT then (s, HLT)
      else if f.hi0 == I_RRMOVQ then
        if !f.ok1 then (s, ADR)
        else if f.hi1 >= REG_NONE || f.lo1 >= REG_NONE then (s, INS)
        else ((if CondHolds(s.cc, f.lo0) then SetReg(s, f.lo1, GetReg(s, f.hi1)) else s).(pc := next), AOK)
      else if f.hi0 == I_IRMOVQ then
        if !f.ok1 then (s, ADR) else if !f.okc || f.lo1 >= REG_NONE then (s, INS)
        else (SetReg(s, f.lo1, f.cval).(pc := next), AOK)
      else if f.hi0 == I_RMMOVQ then
        if !f.ok1 then (s, ADR) else if !f.okc || f.hi1 >= REG_NONE then (s, INS)
        else StoreTo(s, Wrap(f.cval + GetReg(s, f.lo1)), GetReg(s, f.hi1), next)
      else if f.hi0 == I_MRMOVQ then
        if !f.ok1 then (s, ADR) else if !f.okc || f.hi1 >= REG_NONE then (s, INS)
        else
          var pos := Wrap(f.cval + GetReg(s, f.lo1));
          if !InMem(s.m, pos, 8) then (s, ADR)
          else (SetReg(s, f.hi1, WordAt(s.m, pos)).(pc := next), AOK)
      else if f.hi0 == I_ALU then
        if !f.ok1 then (s, ADR)
        else
          var a, b := GetReg(s, f.hi1), GetReg(s, f.lo1);
          (SetReg(s, f.lo1, ComputeAlu(f.lo0, a, b)).(cc := ComputeCC(f.lo0, a, b), pc := next), AOK)
      else if f.hi0 == I_JMP then
        if !f.okc then (s, ADR)
        else (s.(pc := if CondHolds(s.cc, f.lo0) then f.cval else next), AOK)
      else if f.hi0 == I_CALL then
        if !f.okc then (s, ADR)
        else
          var sp := Wrap(GetReg(s, RSP) - 8);
          StoreTo(SetReg(s, RSP, sp), sp, next, f.cval)
      else if f.hi0 == I_RET then
        var sp := GetReg(s, RSP);
        if !InMem(s.m, sp, 8) then (s, ADR)
        else (SetReg(s, RSP, Wrap(sp + 8)).(pc := WordAt(s.m, sp)), AOK)
      else if f.hi0 == I_PUSHQ then
        if !f.ok1 then (s, ADR) else if f.hi1 >= REG_NONE then (s, INS)
        else
          var sp := Wrap(GetReg(s, RSP) - 8);
          StoreTo(SetReg(s, RSP, sp), sp, GetReg(s, f.hi1), next)
      else if f.hi0 == I_POPQ then
        if !f.ok1 then (s, ADR) else if f.hi1 >= REG_NONE then (s, INS)
        else
          var sp := GetReg(s, RSP);
          var s1 := SetReg(s, RSP, Wrap(sp + 8));
          if !InMem(s.m, sp, 8) then (s1, ADR)
          else (SetReg(s1, f.hi1, WordAt(s.m, sp)).(pc := next), AOK)
      else if f.hi0 == I_IADDQ then
        if !f.ok1 then (s, ADR) else if !f.okc || f.lo1 >= REG_NONE then (s, INS)
        else
          var b := GetReg(s, f.lo1);
          (SetReg(s, f.lo1, Wrap(b + f.cval)).(cc := ComputeCC(A_ADD, f.cval, b), pc := next), AOK)
      else (s, INS)
  }

  // k steps, stopping early at a status other than AOK, as the loop of yis does.
  function Run(s: State, k: nat): (r: (State, Stat))
    requires StateOk(s)
    ensures StateOk(r.0) && |r.0.m| == |s.m|
    decreases k
  {
    if k == 0 then (s, AOK)
    else
      var (t, st) := Step(s);
      if st != AOK then (t, st) else Run(t, k - 1)
  }

  lemma {:induction false} RunAdd(s: State, a: nat, b: nat)
    requires StateOk(s) && Run(s, a).1 == AOK
    ensures Run(s, a + b) == Run(Run(s, a).0, b)
    decreases a
  {
    hide Step;
    if a > 0 { RunAdd(Step(s).0, a - 1, b); }
  }
}
