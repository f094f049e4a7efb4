// The interpreter as isa.c runs it: registers, memory and condition codes updated in
// place, one instruction at a time.
module Machine {
  import opened Common
  import opened Words
  import opened Isa

  // Appending a byte to a little-endian number.
  lemma {:induction false} FromBytesSnoc(bs: seq<byte>, b: byte)
    ensures FromBytes(bs + [b]) == FromBytes(bs) + b * Pow256(|bs|)
  {
    if bs != [] {
      FromBytesSnoc(bs[1..], b);
      assert (bs + [b])[1..] == bs[1..] + [b];
      assert 256 * (b * Pow256(|bs| - 1)) == b * Pow256(|bs|);
    } else {
      assert [b][1..] == [];
    }
  }

  lemma {:induction false} ToBytesAt(x: int, n: nat, i: nat)
    requires i < n
    ensures ToBytes(x, n)[i] == Shifted(x, i) % 256
    decreases n
  {
    if i > 0 {
      ToBytesAt(x / 256, n - 1, i - 1);
      ShiftedStep(x, i - 1);
    }
  }

  // x >> (8 * i)
  function Shifted(x: int, i: nat): int
    decreases i
  {
    if i == 0 then x else Shifted(x, i - 1) / 256
  }

  lemma {:induction false} ShiftedStep(x: int, i: nat)
    ensures Shifted(x / 256, i) == Shifted(x, i + 1)
    decreases i
  {
    if i > 0 { ShiftedStep(x, i - 1); }
  }

  class Cpu {
    var pc: word
    const r: array<word>
    const m: array<byte>
    var cc: CC

    ghost predicate Valid()
      reads this, r, m
    {
      r.Length == 15 && m.Length < 0x8000_0000
    }

    ghost function St(): State
      reads this, r, m
    {
      State(pc, r[..], m[..], cc)
    }

    // new_state; init_mem rounds the length up to whole lines of 32 bytes, and
    // DEFAULT_CC is Z=1 S=0 O=0
    constructor (memlen: int)
      requires 0 <= memlen && memlen + 31 < 0x8000_0000
      ensures Valid() && fresh(r) && fresh(m)
      ensures memlen <= m.Length < memlen + 32 && m.Length % 32 == 0
      ensures St() == State(0, seq(15, _ => 0), seq(m.Length, _ => 0), CC(true, false, false))
    {
      pc := 0;
      r := new word[15](_ => 0);
      m := new byte[(memlen + 31) / 32 * 32](_ => 0);
      cc := CC(true, false, false);
    }

    method GetByteVal(pos: word) returns (ok: bool, val: byte)
      ensures ok <==> InMem(m[..], pos, 1)
      ensures val == if ok then m[pos] else 0
    {
      if pos >= TWO63 || pos >= m.Length {
        return false, 0;
      }
      return true, m[pos];
    }

    method GetWordVal(pos: word) returns (ok: bool, val: word)
      ensures ok <==> InMem(m[..], pos, 8)
      ensures val == if ok then WordAt(m[..], pos) else 0
    {
      if pos >= TWO63 || pos + 8 > m.Length {
        return false, 0;
      }
      var sum: int, scale: int := 0, 1;
      var i := 0;
      while i < 8
        invariant 0 <= i <= 8 && scale == Pow256(i)
        invariant sum == FromBytes(m[pos..pos+i])
      {
        FromBytesSnoc(m[pos..pos+i], m[pos+i]);
        assert m[pos..pos+i] + [m[pos+i]] == m[pos..pos+i+1];
        sum := sum + m[pos+i] * scale;
        scale := 256 * scale;
        i := i + 1;
      }
      assert m[..][pos..pos+8] == m[pos..pos+8];
      FromBytesRange(m[pos..pos+8]);
      Pow256Of8();
      return true, sum;
    }

    method SetWordVal(pos: word, val: word) returns (ok: bool)
      modifies m
      ensures ok <==> InMem(m[..], pos, 8)
      ensures m[..] == if ok then SetWord(old(m[..]), pos, val) else old(m[..])
    {
      if pos >= TWO63 || pos + 8 > m.Length {
        return false;
      }
      var v: int := val;
      var i := 0;
      while i < 8
        invariant 0 <= i <= 8 && v == Shifted(val, i)
        invariant forall j | 0 <= j < m.Length && !(pos <= j < pos + i) :: m[j] == old(m[j])
        invariant forall j | pos <= j < pos + i :: m[j] == ToBytes(val, 8)[j - pos]
      {
        ToBytesAt(val, 8, i);
        m[pos+i] := v % 256;
        v := v / 256;
        i := i + 1;
      }
      var want := SetWord(old(m[..]), pos, val);
      assert forall j | 0 <= j < m.Length :: m[..][j] == want[j];
      return true;
    }

    method GetRegVal(id: int) returns (val: word)
      requires Valid() && 0 <= id
      ensures val == GetReg(St(), id)
    {
      if id >= REG_NONE {
        return 0;
      }
      return r[id];
    }

    method SetRegVal(id: int, val: word)
      requires Valid() && 0 <= id
      modifies r
      ensures St() == SetReg(old(St()), id, val)
    {
      if id < REG_NONE {
        r[id] := val;
      }
    }

    // step_state
    method StepState() returns (stat: Stat)
      requires Valid()
      modifies this, r, m
      ensures (St(), stat) == Step(old(St()))
    {
      hide WordAt, SetWord, ComputeAlu, ComputeCC, CondHolds;
      var ok, byte0 := GetByteVal(pc);
      if !ok {
        return ADR;
      }
      var hi0, lo0 := byte0 / 16, byte0 % 16;
      var ftpc: int := pc + 1;
      var ok1, hi1, lo1 := true, REG_NONE, REG_NONE;
      if NeedRegids(hi0) {
        var byte1;
        ok1, byte1 := GetByteVal(Wrap(ftpc));
        ftpc := ftpc + 1;
        hi1, lo1 := byte1 / 16, byte1 % 16;
      }
      var okc, cval := true, 0;
      if NeedImm(hi0) {
        okc, cval := GetWordVal(Wrap(ftpc));
        ftpc := ftpc + 8;
      }
      stat := Execute(Fetched(hi0, lo0, hi1, lo1, ok1, cval, okc, ftpc));
    }

    // The switch of step_state.
    method Execute(f: Fetched) returns (stat: Stat)
      requires Valid() && InMem(m[..], pc, 1) && f == Fetch(m[..], pc)
      modifies this, r, m
      ensures (St(), stat) == Step(old(St()))
    {
      hide WordAt, SetWord, ComputeAlu, ComputeCC, CondHolds, Fetch;
      var next := Wrap(f.next);
      if f.hi0 == I_NOP {
        pc := next;
      } else if f.hi0 == I_HALT {
        return HLT;
      } else if f.hi0 == I_RRMOVQ {
        if !f.ok1 { return ADR; }
        if f.hi1 >= REG_NONE || f.lo1 >= REG_NONE { return INS; }
        var val := GetRegVal(f.hi1);
        if CondHolds(cc, f.lo0) { SetRegVal(f.lo1, val); }
        pc := next;
      } else if f.hi0 == I_IRMOVQ {
        if !f.ok1 { return ADR; }
        if !f.okc || f.lo1 >= REG_NONE { return INS; }
        SetRegVal(f.lo1, f.cval);
        pc := next;
      } else if f.hi0 == I_RMMOVQ || f.hi0 == I_MRMOVQ {
        stat := ExecuteMove(f);
        return;
      } else if f.hi0 == I_ALU || f.hi0 == I_IADDQ {
        stat := ExecuteAlu(f);
        return;
      } else if f.hi0 == I_JMP {
        if !f.okc { return ADR; }
        pc := if CondHolds(cc, f.lo0) then f.cval else next;
      } else if f.hi0 == I_CALL || f.hi0 == I_RET || f.hi0 == I_PUSHQ || f.hi0 == I_POPQ {
        stat := ExecuteStack(f);
        return;
      } else {
        return INS;
      }
      return AOK;
    }

    method ExecuteMove(f: Fetched) returns (stat: Stat)
      requires Valid() && InMem(m[..], pc, 1) && f == Fetch(m[..], pc) && (f.hi0 == I_RMMOVQ || f.hi0 == I_MRMOVQ)
      modifies this, r, m
      ensures (St(), stat) == Step(old(St()))
    {
      hide WordAt, SetWord, Fetch;
      if !f.ok1 { return ADR; }
      if !f.okc || f.hi1 >= REG_NONE { return INS; }
      var base: int := GetRegVal(f.lo1);
      var pos := Wrap(f.cval + base);
      if f.hi0 == I_RMMOVQ {
        var val := GetRegVal(f.hi1);
        var ok := SetWordVal(pos, val);
        if !ok { return ADR; }
      } else {
        var ok, val := GetWordVal(pos);
        if !ok { return ADR; }
        SetRegVal(f.hi1, val);
      }
      pc := Wrap(f.next);
      return AOK;
    }

    method ExecuteAlu(f: Fetched) returns (stat: Stat)
      requires Valid() && InMem(m[..], pc, 1) && f == Fetch(m[..], pc) && (f.hi0 == I_ALU || f.hi0 == I_IADDQ)
      modifies this, r, m
      ensures (St(), stat) == Step(old(St()))
    {
      hide WordAt, Fetch, ComputeAlu, ComputeCC;
      if !f.ok1 { return ADR; }
      if f.hi0 == I_ALU {
        var a := GetRegVal(f.hi1);
        var b := GetRegVal(f.lo1);
        SetRegVal(f.lo1, ComputeAlu(f.lo0, a, b));
        cc := ComputeCC(f.lo0, a, b);
      } else {
        if !f.okc || f.lo1 >= REG_NONE { return INS; }
        var b: int := GetRegVal(f.lo1);
        SetRegVal(f.lo1, Wrap(b + f.cval));
        cc := ComputeCC(A_ADD, f.cval, b);
      }
      pc := Wrap(f.next);
      return AOK;
    }

    method ExecuteStack(f: Fetched) returns (stat: Stat)
      requires Valid() && InMem(m[..], pc, 1) && f == Fetch(m[..], pc)
      requires f.hi0 == I_CALL || f.hi0 == I_RET || f.hi0 == I_PUSHQ || f.hi0 == I_POPQ
      modifies this, r, m
      ensures (St(), stat) == Step(old(St()))
    {
      hide WordAt, SetWord, Fetch;
      if f.hi0 == I_CALL {
        if !f.okc { return ADR; }
        var sp: int := GetRegVal(RSP);
        var val := Wrap(sp - 8);
        SetRegVal(RSP, val);
        var ok := SetWordVal(val, Wrap(f.next));
        if !ok { return ADR; }
        pc := f.cval;
      } else if f.hi0 == I_RET {
        var dval: int := GetRegVal(RSP);
        var ok, val := GetWordVal(dval);
        if !ok { return ADR; }
        SetRegVal(RSP, Wrap(dval + 8));
        pc := val;
      } else if f.hi0 == I_PUSHQ {
        if !f.ok1 { return ADR; }
        if f.hi1 >= REG_NONE { return INS; }
        var val := GetRegVal(f.hi1);
        var sp: int := GetRegVal(RSP);
        var dval := Wrap(sp - 8);
        SetRegVal(RSP, dval);
        var ok := SetWordVal(dval, val);
        if !ok { return ADR; }
        pc := Wrap(f.next);
      } else {
        if !f.ok1 { return ADR; }
        if f.hi1 >= REG_NONE { return INS; }
        var dval: int := GetRegVal(RSP);
        SetRegVal(RSP, Wrap(dval + 8));
        var ok, val := GetWordVal(dval);
        if !ok { return ADR; }
        SetRegVal(f.hi1, val);
        pc := Wrap(f.next);
      }
      return AOK;
    }
  }
}
