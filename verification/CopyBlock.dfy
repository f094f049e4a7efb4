// copy of archlab-handout/sim/misc/copy.ys, run by the interpreter of Isa: it computes
// what copy_block of examples.c computes, overlapping blocks included.
module CopyBlock {
  import opened Common
  import opened Words
  import opened Isa
  import opened Execution

  // The 79 bytes of copy assembled at address a: loop is at a + 30, done at a + 78.
  function Code(a: word): seq<byte>
    requires a < TWO63
  {
    WithBoth(0x30, 0xF0, 0) +               //  0  irmovq $0, %rax
    (WithBoth(0x30, 0xF8, 8) +              // 10  irmovq $8, %r8
    (WithBoth(0x30, 0xF9, 1) +              // 20  irmovq $1, %r9
    (WithRegs(0x62, 0x22) +                 // 30  loop: andq %rdx, %rdx
    (WithImm(0x71, a + 78) +                // 32  jle done
    (WithBoth(0x50, 0x17, 0) +              // 41  mrmovq (%rdi), %rcx
    (WithRegs(0x60, 0x87) +                 // 51  addq %r8, %rdi
    (WithBoth(0x40, 0x16, 0) +              // 53  rmmovq %rcx, (%rsi)
    (WithRegs(0x60, 0x86) +                 // 63  addq %r8, %rsi
    (WithRegs(0x63, 0x10) +                 // 65  xorq %rcx, %rax
    (WithRegs(0x61, 0x92) +                 // 67  subq %r9, %rdx
    (WithImm(0x70, a + 30) +                // 69  jmp loop
    Plain(0x90))))))))))))                  // 78  done: ret
  }

  ghost predicate Loaded(m: seq<byte>, a: word)
  {
    && a < TWO63 - 100
    && CodeAt(m, a, WithBoth(0x30, 0xF0, 0))
    && CodeAt(m, a + 10, WithBoth(0x30, 0xF8, 8))
    && CodeAt(m, a + 20, WithBoth(0x30, 0xF9, 1))
    && CodeAt(m, a + 30, WithRegs(0x62, 0x22))
    && CodeAt(m, a + 32, WithImm(0x71, a + 78))
    && CodeAt(m, a + 41, WithBoth(0x50, 0x17, 0))
    && CodeAt(m, a + 51, WithRegs(0x60, 0x87))
    && CodeAt(m, a + 53, WithBoth(0x40, 0x16, 0))
    && CodeAt(m, a + 63, WithRegs(0x60, 0x86))
    && CodeAt(m, a + 65, WithRegs(0x63, 0x10))
    && CodeAt(m, a + 67, WithRegs(0x61, 0x92))
    && CodeAt(m, a + 69, WithImm(0x70, a + 30))
    && CodeAt(m, a + 78, Plain(0x90))
  }

  lemma LoadedCode(m: seq<byte>, a: word)
    requires a < TWO63 - 100 && CodeAt(m, a, Code(a))
    ensures Loaded(m, a)
  {
    hide CodeAt, ToBytes;
    var c11 := WithImm(0x70, a + 30) + Plain(0x90);
    var c10 := WithRegs(0x61, 0x92) + c11;
    var c9 := WithRegs(0x63, 0x10) + c10;
    var c8 := WithRegs(0x60, 0x86) + c9;
    var c7 := WithBoth(0x40, 0x16, 0) + c8;
    var c6 := WithRegs(0x60, 0x87) + c7;
    var c5 := WithBoth(0x50, 0x17, 0) + c6;
    var c4 := WithImm(0x71, a + 78) + c5;
    var c3 := WithRegs(0x62, 0x22) + c4;
    var c2 := WithBoth(0x30, 0xF9, 1) + c3;
    var c1 := WithBoth(0x30, 0xF8, 8) + c2;
    CodeAppend(m, a, WithBoth(0x30, 0xF0, 0), c1);
    CodeAppend(m, a + 10, WithBoth(0x30, 0xF8, 8), c2);
    CodeAppend(m, a + 20, WithBoth(0x30, 0xF9, 1), c3);
    CodeAppend(m, a + 30, WithRegs(0x62, 0x22), c4);
    CodeAppend(m, a + 32, WithImm(0x71, a + 78), c5);
    CodeAppend(m, a + 41, WithBoth(0x50, 0x17, 0), c6);
    CodeAppend(m, a + 51, WithRegs(0x60, 0x87), c7);
    CodeAppend(m, a + 53, WithBoth(0x40, 0x16, 0), c8);
    CodeAppend(m, a + 63, WithRegs(0x60, 0x86), c9);
    CodeAppend(m, a + 65, WithRegs(0x63, 0x10), c10);
    CodeAppend(m, a + 67, WithRegs(0x61, 0x92), c11);
    CodeAppend(m, a + 69, WithImm(0x70, a + 30), Plain(0x90));
  }

  lemma LoadedFrame(m: seq<byte>, m': seq<byte>, a: word)
    requires Loaded(m, a) && |m'| == |m| && forall i | a <= i < a + 79 :: m'[i] == m[i]
    ensures Loaded(m', a)
  {
    CodeFrame(m, m', a, WithBoth(0x30, 0xF0, 0));
    CodeFrame(m, m', a + 10, WithBoth(0x30, 0xF8, 8));
    CodeFrame(m, m', a + 20, WithBoth(0x30, 0xF9, 1));
    CodeFrame(m, m', a + 30, WithRegs(0x62, 0x22));
    CodeFrame(m, m', a + 32, WithImm(0x71, a + 78));
    CodeFrame(m, m', a + 41, WithBoth(0x50, 0x17, 0));
    CodeFrame(m, m', a + 51, WithRegs(0x60, 0x87));
    CodeFrame(m, m', a + 53, WithBoth(0x40, 0x16, 0));
    CodeFrame(m, m', a + 63, WithRegs(0x60, 0x86));
    CodeFrame(m, m', a + 65, WithRegs(0x63, 0x10));
    CodeFrame(m, m', a + 67, WithRegs(0x61, 0x92));
    CodeFrame(m, m', a + 69, WithImm(0x70, a + 30));
    CodeFrame(m, m', a + 78, Plain(0x90));
  }

  // copy_block of examples.c: the memory after copying len words one at a time, and
  // the checksum so far xor-ed with theirs.
  function CopyMem(m: seq<byte>, src: int, dest: int, len: int): (m': seq<byte>)
    requires 0 <= src && 0 <= dest && (len > 0 ==> src + 8 * len <= |m| && dest + 8 * len <= |m|)
    ensures |m'| == |m|
    decreases len
  {
    if len <= 0 then m else CopyMem(SetWord(m, dest, WordAt(m, src)), src + 8, dest + 8, len - 1)
  }

  function CopySum(m: seq<byte>, src: int, dest: int, len: int, result: word): word
    requires 0 <= src && 0 <= dest && (len > 0 ==> src + 8 * len <= |m| && dest + 8 * len <= |m|)
    decreases len
  {
    if len <= 0 then result
    else CopySum(SetWord(m, dest, WordAt(m, src)), src + 8, dest + 8, len - 1, Xor(result, WordAt(m, src)))
  }

  // m' is m with the n bytes at src moved to dest.
  ghost predicate Moved(m: seq<byte>, m': seq<byte>, src: int, dest: int, n: int)
  {
    && |m'| == |m| && 0 <= src && src + n <= |m|
    && forall i {:trigger m'[i]} | 0 <= i < |m| :: m'[i] == (if dest <= i < dest + n then m[src + i - dest] else m[i])
  }

  lemma WordMoves(m: seq<byte>, src: int, dest: int)
    requires 0 <= src && src + 8 <= |m| && 0 <= dest && dest + 8 <= |m|
    ensures Moved(m, SetWord(m, dest, WordAt(m, src)), src, dest, 8)
  {
    hide ToBytes, FromBytes;
    var bs := m[src..src+8];
    ToFromBytes(bs);
    var m' := SetWord(m, dest, WordAt(m, src));
    assert m' == m[..dest] + bs + m[dest+8..];
    forall i | 0 <= i < |m| ensures m'[i] == (if dest <= i < dest + 8 then m[src + i - dest] else m[i]) {
      if dest <= i < dest + 8 { assert m'[i] == bs[i - dest]; }
    }
  }

  lemma MovedTwice(m: seq<byte>, m1: seq<byte>, m2: seq<byte>, src: int, dest: int, k: int, n: int)
    requires 0 <= k && 0 <= n && Moved(m, m1, src, dest, k) && Moved(m1, m2, src + k, dest + k, n)
    requires src + k + n <= dest || dest + k <= src
    ensures Moved(m, m2, src, dest, k + n)
  {
    forall i | 0 <= i < |m| ensures m2[i] == (if dest <= i < dest + (k + n) then m[src + i - dest] else m[i]) {
      if dest + k <= i < dest + k + n {
        var j := src + k + i - (dest + k);
        assert m2[i] == m1[j] && m1[j] == m[j];
      }
    }
  }

  // For blocks that do not overlap this is a block move.
  lemma {:induction false} CopyMemMoves(m: seq<byte>, src: int, dest: int, len: int)
    requires 0 <= src && 0 <= dest && 0 <= len && src + 8 * len <= |m| && dest + 8 * len <= |m|
    requires src + 8 * len <= dest || dest + 8 * len <= src
    ensures Moved(m, CopyMem(m, src, dest, len), src, dest, 8 * len)
    decreases len
  {
    hide SetWord, WordAt, Moved;
    if len > 0 {
      var m1 := SetWord(m, dest, WordAt(m, src));
      WordMoves(m, src, dest);
      CopyMemMoves(m1, src + 8, dest + 8, len - 1);
      MovedTwice(m, m1, CopyMem(m, src, dest, len), src, dest, 8, 8 * (len - 1));
    } else {
      MovedNone(m, src, dest);
    }
  }

  lemma MovedNone(m: seq<byte>, src: int, dest: int)
    requires 0 <= src <= |m|
    ensures Moved(m, m, src, dest, 0)
  {
  }

  // A state with copy at a, %rdi and %rsi at blocks of len words inside the memory, and
  // stores that touch neither the code nor the return address at %rsp.
  ghost predicate Blocks(s: State, a: word, src: int, dest: int, len: int)
  {
    Called(s, a, src, dest, len) && Loaded(s.m, a)
  }

  ghost predicate Called(s: State, a: word, src: int, dest: int, len: int)
  {
    && StateOk(s) && a + 79 <= |s.m|
    && 0 <= src && 0 <= dest && s.r[RDI] == src && s.r[RSI] == dest && Signed(s.r[RDX]) == len
    && s.r[RSP] + 8 <= |s.m|
    && (len > 0 ==>
          && src + 8 * len <= |s.m| && dest + 8 * len <= |s.m|
          && (dest + 8 * len <= a || a + 79 <= dest)
          && (dest + 8 * len <= s.r[RSP] || s.r[RSP] + 8 <= dest))
  }

  ghost predicate AtLoop(s: State, a: word, src: int, dest: int, len: int)
  {
    Blocks(s, a, src, dest, len) && s.pc == a + 30 && s.r[R8] == 8 && s.r[R9] == 1
  }

  // The registers after one pass of the loop.
  function Passed(r: seq<word>, val: word, src: word, dest: word, len: word): seq<word>
    requires |r| == 15
  {
    r[RCX := val][RDI := src][RSI := dest][RAX := Xor(val, r[RAX])][RDX := len]
  }

  // One pass of the loop: nine instructions.
  lemma Pass(s: State, a: word, src: int, dest: int, len: int) returns (t: State)
    requires AtLoop(s, a, src, dest, len) && len > 0
    ensures Run(s, 9) == (t, AOK) && StateOk(t) && t.pc == a + 30
    ensures t.m == SetWord(s.m, dest, WordAt(s.m, src))
    ensures t.r == Passed(s.r, WordAt(s.m, src), src + 8, dest + 8, len - 1)
  {
    hide Step, Run, ComputeCC, CondHolds, WordAt, SetWord, CodeAt, ToBytes, WithRegs, WithImm, WithBoth, Plain, And,
         Xor;
    StepAlu(s, A_AND, RDX, RDX);
    CondAfterTest(s.r[RDX]);
    var s1 := Step(s).0;
    assert s1.r == s.r;
    StepJmp(s1, C_LE, a + 78);
    var s2 := Step(s1).0;
    StepMrmovq(s2, 0, RCX, RDI);
    var s3 := Step(s2).0;
    StepAlu(s3, A_ADD, R8, RDI);
    var s4 := Step(s3).0;
    StepRmmovq(s4, 0, RCX, RSI);
    var s5 := Step(s4).0;
    StoreKeepsCode(s, a, src, dest, len, WordAt(s.m, src));
    var t1 := PassTail(s5, a);
    t := t1;
    RunOne(s, 9); RunOne(s1, 8); RunOne(s2, 7); RunOne(s3, 6); RunOne(s4, 5);
    assert Wrap(len - 1) == len - 1;
    assert t.r == Passed(s.r, WordAt(s.m, src), src + 8, dest + 8, len - 1);
  }

  function Tail(r: seq<word>): seq<word>
    requires |r| == 15
  {
    r[RSI := ComputeAlu(A_ADD, r[R8], r[RSI])][RAX := Xor(r[RCX], r[RAX])][RDX := ComputeAlu(A_SUB, r[R9], r[RDX])]
  }

  // The last four instructions of a pass.
  lemma PassTail(s: State, a: word) returns (t: State)
    requires StateOk(s) && Loaded(s.m, a) && s.pc == a + 63
    ensures Run(s, 4) == (t, AOK) && StateOk(t) && t.pc == a + 30 && t.m == s.m
    ensures t.r == Tail(s.r)
  {
    hide Step, Run, ComputeCC, CodeAt, ToBytes, WithRegs, WithImm, WithBoth, Plain, And, Xor;
    StepAlu(s, A_ADD, R8, RSI);
    var s1 := Step(s).0;
    StepAlu(s1, A_XOR, RCX, RAX);
    var s2 := Step(s1).0;
    StepAlu(s2, A_SUB, R9, RDX);
    var s3 := Step(s2).0;
    StepJmp(s3, C_YES, a + 30);
    t := Step(s3).0;
    RunOne(s, 4); RunOne(s1, 3); RunOne(s2, 2); RunOne(s3, 1);
    RunNone(t);
  }

  lemma StoreKeepsCode(s: State, a: word, src: int, dest: int, len: int, v: word)
    requires AtLoop(s, a, src, dest, len) && len > 0
    ensures Loaded(SetWord(s.m, dest, v), a)
    ensures WordAt(SetWord(s.m, dest, v), s.r[RSP]) == WordAt(s.m, s.r[RSP])
  {
    hide Loaded, SetWord, WordAt;
    SetWordAt(s.m, dest, v);
    LoadedFrame(s.m, SetWord(s.m, dest, v), a);
    WordFrame(s.m, SetWord(s.m, dest, v), s.r[RSP]);
  }

  // Leaving the loop.
  lemma Exit(s: State, a: word, src: int, dest: int, len: int) returns (t: State)
    requires AtLoop(s, a, src, dest, len) && len <= 0
    ensures Run(s, 3) == (t, AOK) && StateOk(t) && t.m == s.m
    ensures t.pc == WordAt(s.m, s.r[RSP]) && t.r == s.r[RSP := s.r[RSP] + 8]
  {
    hide Step, Run, ComputeCC, CondHolds, WordAt, CodeAt, ToBytes, WithRegs, WithImm, WithBoth, Plain, And, Xor;
    StepAlu(s, A_AND, RDX, RDX);
    CondAfterTest(s.r[RDX]);
    var s1 := Step(s).0;
    assert s1.r == s.r;
    StepJmp(s1, C_LE, a + 78);
    var s2 := Step(s1).0;
    StepRet(s2);
    t := Step(s2).0;
    RunOne(s, 3); RunOne(s1, 2); RunOne(s2, 1);
    RunNone(t);
  }

  lemma AfterPass(s: State, t: State, a: word, src: int, dest: int, len: int)
    requires AtLoop(s, a, src, dest, len) && len > 0 && StateOk(t) && t.pc == a + 30
    requires t.m == SetWord(s.m, dest, WordAt(s.m, src))
    requires t.r == Passed(s.r, WordAt(s.m, src), src + 8, dest + 8, len - 1)
    ensures AtLoop(t, a, src + 8, dest + 8, len - 1)
    ensures WordAt(t.m, t.r[RSP]) == WordAt(s.m, s.r[RSP]) && t.r[RSP] == s.r[RSP]
    ensures t.r[RAX] == Xor(s.r[RAX], WordAt(s.m, src))
  {
    hide Loaded, SetWord, WordAt, Xor;
    StoreKeepsCode(s, a, src, dest, len, WordAt(s.m, src));
    XorFacts(s.r[RAX], WordAt(s.m, src));
  }

  lemma {:induction false} LoopCorrect(s: State, a: word, src: int, dest: int, len: int) returns (t: State)
    requires AtLoop(s, a, src, dest, len)
    ensures var k := if len > 0 then len else 0;
      Run(s, 9 * k + 3) == (t, AOK)
    ensures StateOk(t) && t.pc == WordAt(s.m, s.r[RSP]) && t.r[RSP] == s.r[RSP] + 8
    ensures t.m == CopyMem(s.m, src, dest, len) && t.r[RAX] == CopySum(s.m, src, dest, len, s.r[RAX])
    decreases len
  {
    hide Run, Loaded, SetWord, WordAt, Xor;
    if len <= 0 {
      t := Exit(s, a, src, dest, len);
    } else {
      var u := Pass(s, a, src, dest, len);
      AfterPass(s, u, a, src, dest, len);
      t := LoopCorrect(u, a, src + 8, dest + 8, len - 1);
      RunAdd(s, 9, 9 * (len - 1) + 3);
    }
  }

  // Every signed length, overlapping blocks included: copy returns to its caller with
  // the memory and the checksum that copy_block computes.
  lemma CopyCorrect(s: State, a: word, src: int, dest: int, len: int) returns (t: State)
    requires Blocks(s, a, src, dest, len) && s.pc == a
    ensures var k := if len > 0 then len else 0;
      Run(s, 9 * k + 6) == (t, AOK)
    ensures t.pc == WordAt(s.m, s.r[RSP]) && StateOk(t) && t.r[RSP] == s.r[RSP] + 8
    ensures t.m == CopyMem(s.m, src, dest, len) && t.r[RAX] == CopySum(s.m, src, dest, len, 0)
  {
    hide Run, Step, SetWord, WordAt, Xor, CodeAt, ToBytes, WithRegs, WithImm, WithBoth, Plain, CopyMem, CopySum;
    StepIrmovq(s, 0, RAX);
    var s1 := Step(s).0;
    StepIrmovq(s1, 8, R8);
    var s2 := Step(s1).0;
    StepIrmovq(s2, 1, R9);
    var s3 := Step(s2).0;
    RunOne(s, 3); RunOne(s1, 2); RunOne(s2, 1);
    RunNone(s3);
    t := LoopCorrect(s3, a, src, dest, len);
    RunAdd(s, 3, 9 * (if len > 0 then len else 0) + 3);
  }

  // The same from the assembled bytes.
  lemma CopyOfCode(s: State, a: word, src: int, dest: int, len: int) returns (t: State)
    requires Called(s, a, src, dest, len) && s.pc == a && CodeAt(s.m, a, Code(a))
    ensures var k := if len > 0 then len else 0;
      Run(s, 9 * k + 6) == (t, AOK)
    ensures t.pc == WordAt(s.m, s.r[RSP]) && StateOk(t) && t.r[RSP] == s.r[RSP] + 8
    ensures t.m == CopyMem(s.m, src, dest, len) && t.r[RAX] == CopySum(s.m, src, dest, len, 0)
  {
    hide Code, CodeAt, Run, WordAt, Loaded, CopyMem, CopySum;
    LoadedCode(s.m, a);
    t := CopyCorrect(s, a, src, dest, len);
  }
}
