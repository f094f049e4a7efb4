// rsum_list of archlab-handout/sim/misc/rsum.ys, run by the interpreter of Isa: for
// every list it returns the sum in %rax, and it touches nothing but its stack.
module Rsum {
  import opened Common
  import opened Words
  import opened Isa
  import opened Execution

  // The 58 bytes of rsum_list assembled at address a; base is at a + 47.
  function Code(a: word): seq<byte>
    requires a < TWO63
  {
    WithRegs(0x62, 0x77) +                  //  0  andq %rdi, %rdi
    (WithImm(0x73, a + 47) +                //  2  je base
    (WithBoth(0x50, 0x67, 0) +              // 11  mrmovq (%rdi), %rsi
    (WithBoth(0x50, 0x77, 8) +              // 21  mrmovq 8(%rdi), %rdi
    (WithRegs(0xA0, 0x6F) +                 // 31  pushq %rsi
    (WithImm(0x80, a) +                     // 33  call rsum_list
    (WithRegs(0xB0, 0x6F) +                 // 42  popq %rsi
    (WithRegs(0x60, 0x60) +                 // 44  addq %rsi, %rax
    (Plain(0x90) +                          // 46  ret
    (WithBoth(0x30, 0xF0, 0) +              // 47  base: irmovq $0, %rax
    Plain(0x90))))))))))                    // 57  ret
  }

  // The same instruction by instruction.
  ghost predicate Loaded(m: seq<byte>, a: word)
  {
    && a < TWO63 - 100
    && CodeAt(m, a, WithRegs(0x62, 0x77))
    && CodeAt(m, a + 2, WithImm(0x73, a + 47))
    && CodeAt(m, a + 11, WithBoth(0x50, 0x67, 0))
    && CodeAt(m, a + 21, WithBoth(0x50, 0x77, 8))
    && CodeAt(m, a + 31, WithRegs(0xA0, 0x6F))
    && CodeAt(m, a + 33, WithImm(0x80, a))
    && CodeAt(m, a + 42, WithRegs(0xB0, 0x6F))
    && CodeAt(m, a + 44, WithRegs(0x60, 0x60))
    && CodeAt(m, a + 46, Plain(0x90))
    && CodeAt(m, a + 47, WithBoth(0x30, 0xF0, 0))
    && CodeAt(m, a + 57, Plain(0x90))
  }

  lemma LoadedCode(m: seq<byte>, a: word)
    requires a < TWO63 - 100 && CodeAt(m, a, Code(a))
    ensures Loaded(m, a)
  {
    hide CodeAt, ToBytes;
    var c9 := WithBoth(0x30, 0xF0, 0) + Plain(0x90);
    var c8 := Plain(0x90) + c9;
    var c7 := WithRegs(0x60, 0x60) + c8;
    var c6 := WithRegs(0xB0, 0x6F) + c7;
    var c5 := WithImm(0x80, a) + c6;
    var c4 := WithRegs(0xA0, 0x6F) + c5;
    var c3 := WithBoth(0x50, 0x77, 8) + c4;
    var c2 := WithBoth(0x50, 0x67, 0) + c3;
    var c1 := WithImm(0x73, a + 47) + c2;
    CodeAppend(m, a, WithRegs(0x62, 0x77), c1);
    CodeAppend(m, a + 2, WithImm(0x73, a + 47), c2);
    CodeAppend(m, a + 11, WithBoth(0x50, 0x67, 0), c3);
    CodeAppend(m, a + 21, WithBoth(0x50, 0x77, 8), c4);
    CodeAppend(m, a + 31, WithRegs(0xA0, 0x6F), c5);
    CodeAppend(m, a + 33, WithImm(0x80, a), c6);
    CodeAppend(m, a + 42, WithRegs(0xB0, 0x6F), c7);
    CodeAppend(m, a + 44, WithRegs(0x60, 0x60), c8);
    CodeAppend(m, a + 46, Plain(0x90), c9);
    CodeAppend(m, a + 47, WithBoth(0x30, 0xF0, 0), Plain(0x90));
  }

  lemma LoadedFrame(m: seq<byte>, m': seq<byte>, a: word)
    requires Loaded(m, a) && |m'| == |m| && forall i | a <= i < a + 58 :: m'[i] == m[i]
    ensures Loaded(m', a)
  {
    CodeFrame(m, m', a, WithRegs(0x62, 0x77));
    CodeFrame(m, m', a + 2, WithImm(0x73, a + 47));
    CodeFrame(m, m', a + 11, WithBoth(0x50, 0x67, 0));
    CodeFrame(m, m', a + 21, WithBoth(0x50, 0x77, 8));
    CodeFrame(m, m', a + 31, WithRegs(0xA0, 0x6F));
    CodeFrame(m, m', a + 33, WithImm(0x80, a));
    CodeFrame(m, m', a + 42, WithRegs(0xB0, 0x6F));
    CodeFrame(m, m', a + 44, WithRegs(0x60, 0x60));
    CodeFrame(m, m', a + 46, Plain(0x90));
    CodeFrame(m, m', a + 47, WithBoth(0x30, 0xF0, 0));
    CodeFrame(m, m', a + 57, Plain(0x90));
  }

  // A list of ELE records, value then next pointer, ending in NULL.  No record
  // overlaps the words lo..hi that the stack will use.
  ghost predicate IsList(m: seq<byte>, p: word, xs: seq<word>, lo: int, hi: int)
    decreases |xs|
  {
    if xs == [] then p == 0
    else
      && p != 0 && p + 16 <= |m| && (p + 16 <= lo || hi <= p)
      && WordAt(m, p) == xs[0]
      && IsList(m, WordAt(m, p + 8), xs[1..], lo, hi)
  }

  // sum_list of examples.c, in 64-bit arithmetic
  function Sum(xs: seq<word>): word
  {
    if xs == [] then 0 else Wrap(xs[0] + Sum(xs[1..]))
  }

  lemma {:induction false} ListFrame(m: seq<byte>, m': seq<byte>, p: word, xs: seq<word>, lo: int, hi: int, lo': int,
          hi': int)
    requires IsList(m, p, xs, lo, hi) && |m'| == |m|
    requires lo <= lo' && hi' <= hi
    requires forall i | 0 <= i < |m| && !(lo <= i < hi) :: m'[i] == m[i]
    ensures IsList(m', p, xs, lo', hi')
    decreases |xs|
  {
    if xs != [] {
      WordFrame(m, m', p);
      WordFrame(m, m', p + 8);
      ListFrame(m, m', WordAt(m, p + 8), xs[1..], lo, hi, lo', hi');
    }
  }

  // A state about to run rsum_list at a, with room for its stack below the return
  // address at sp.
  ghost predicate Called(s: State, a: word, xs: seq<word>)
  {
    && StateOk(s) && s.pc == a && a + 58 <= |s.m|
    && var sp := s.r[RSP];
       && 16 * |xs| <= sp && sp + 8 <= |s.m|
       && (a + 58 <= sp - 16 * |xs| || sp <= a)
       && IsList(s.m, s.r[RDI], xs, sp - 16 * |xs|, sp)
  }

  ghost predicate Ready(s: State, a: word, xs: seq<word>) { Called(s, a, xs) && Loaded(s.m, a) }

  // The two words a call for a nonempty list pushes.
  function Pushed(m: seq<byte>, sp: int, val: word, back: word): seq<byte>
    requires 16 <= sp <= |m|
  {
    SetWord(SetWord(m, sp - 8, val), sp - 16, back)
  }

  lemma PushedFacts(m: seq<byte>, sp: int, val: word, back: word)
    requires 16 <= sp <= |m|
    ensures |Pushed(m, sp, val, back)| == |m|
    ensures WordAt(Pushed(m, sp, val, back), sp - 8) == val
    ensures WordAt(Pushed(m, sp, val, back), sp - 16) == back
    ensures forall i | 0 <= i < |m| && !(sp - 16 <= i < sp) :: Pushed(m, sp, val, back)[i] == m[i]
  {
    var m1 := SetWord(m, sp - 8, val);
    SetWordAt(m, sp - 8, val);
    SetWordAt(m1, sp - 16, back);
    WordFrame(m1, SetWord(m1, sp - 16, back), sp - 8);
  }

  // From the entry to the recursive call.
  lemma Down(s: State, a: word, xs: seq<word>) returns (t: State)
    requires Ready(s, a, xs) && xs != []
    ensures Run(s, 6) == (t, AOK) && StateOk(t) && t.pc == a
    ensures t.r == s.r[RSI := xs[0]][RDI := WordAt(s.m, s.r[RDI] + 8)][RSP := s.r[RSP] - 16]
    ensures t.m == Pushed(s.m, s.r[RSP], xs[0], a + 42)
  {
    hide Step, Run, ComputeCC, ComputeAlu, CondHolds, WordAt, SetWord, CodeAt, ToBytes, WithRegs, WithImm, WithBoth,
         Plain;
    var p := s.r[RDI];
    StepAlu(s, A_AND, RDI, RDI);
    CondAfterTest(p);
    var s1 := Step(s).0;
    assert s1.r == s.r;
    StepJmp(s1, C_E, a + 47);
    var s2 := Step(s1).0;
    StepMrmovq(s2, 0, RSI, RDI);
    var s3 := Step(s2).0;
    StepMrmovq(s3, 8, RDI, RDI);
    var s4 := Step(s3).0;
    StepPushq(s4, RSI);
    var s5 := Step(s4).0;
    PushKeepsCode(s, s5, a, xs, xs[0]);
    StepCall(s5, a);
    t := Step(s5).0;
    RunOne(s, 6); RunOne(s1, 5); RunOne(s2, 4); RunOne(s3, 3); RunOne(s4, 2); RunOne(s5, 1);
    RunNone(t);
  }

  lemma PushKeepsCode(s: State, t: State, a: word, xs: seq<word>, v: word)
    requires Ready(s, a, xs) && xs != [] && t.m == SetWord(s.m, s.r[RSP] - 8, v)
    ensures Loaded(t.m, a)
  {
    hide Loaded, SetWord, WordAt, IsList;
    SetWordAt(s.m, s.r[RSP] - 8, v);
    LoadedFrame(s.m, t.m, a);
  }

  // From the return of the recursive call to the return.
  lemma Up(s: State, a: word) returns (t: State)
    requires StateOk(s) && s.pc == a + 42 && Loaded(s.m, a) && s.r[RSP] + 16 <= |s.m|
    ensures Run(s, 3) == (t, AOK) && StateOk(t) && t.m == s.m
    ensures t.pc == WordAt(s.m, s.r[RSP] + 8)
    ensures var v := WordAt(s.m, s.r[RSP]);
      t.r == s.r[RSI := v][RAX := Wrap(v + s.r[RAX])][RSP := s.r[RSP] + 16]
  {
    hide Step, Run, ComputeCC, WordAt, CodeAt, ToBytes, WithRegs, WithImm, WithBoth, Plain;
    StepPopq(s, RSI);
    var s1 := Step(s).0;
    StepAlu(s1, A_ADD, RSI, RAX);
    var s2 := Step(s1).0;
    StepRet(s2);
    t := Step(s2).0;
    RunOne(s, 3); RunOne(s1, 2); RunOne(s2, 1);
    RunNone(t);
  }

  lemma Base(s: State, a: word) returns (t: State)
    requires Ready(s, a, [])
    ensures Run(s, 4) == (t, AOK) && StateOk(t) && t.m == s.m
    ensures t.pc == WordAt(s.m, s.r[RSP])
    ensures t.r == s.r[RAX := 0][RSP := s.r[RSP] + 8]
  {
    hide Step, Run, ComputeCC, ComputeAlu, CondHolds, WordAt, CodeAt, ToBytes, WithRegs, WithImm, WithBoth, Plain;
    StepAlu(s, A_AND, RDI, RDI);
    CondAfterTest(s.r[RDI]);
    var s1 := Step(s).0;
    assert s1.r == s.r;
    StepJmp(s1, C_E, a + 47);
    var s2 := Step(s1).0;
    StepIrmovq(s2, 0, RAX);
    var s3 := Step(s2).0;
    StepRet(s3);
    t := Step(s3).0;
    RunOne(s, 4); RunOne(s1, 3); RunOne(s2, 2); RunOne(s3, 1);
    RunNone(t);
  }

  // Every list, every stack position: rsum_list returns to the address its caller
  // pushed after 9n + 4 steps, with the sum in %rax, %rsp above the return address,
  // and no byte outside its own 16n bytes of stack changed.
  lemma {:induction false} RsumCorrect(s: State, a: word, xs: seq<word>) returns (t: State)
    requires Ready(s, a, xs)
    ensures Run(s, 9 * |xs| + 4) == (t, AOK) && StateOk(t)
    ensures t.pc == WordAt(s.m, s.r[RSP])
    ensures t.r[RAX] == Sum(xs) && t.r[RSP] == s.r[RSP] + 8
    ensures forall i | 0 <= i < 15 && i != RAX && i != RSP && i != RSI && i != RDI :: t.r[i] == s.r[i]
    ensures |t.m| == |s.m|
    ensures forall i | 0 <= i < |s.m| && !(s.r[RSP] - 16 * |xs| <= i < s.r[RSP]) :: t.m[i] == s.m[i]
    decreases |xs|
  {
    hide Run, WordAt, SetWord, Pushed, Loaded, IsList;
    if xs == [] {
      t := Base(s, a);
    } else {
      var sp := s.r[RSP];
      var u := Down(s, a, xs);
      ReadyBelow(s, u, a, xs);
      var v := RsumCorrect(u, a, xs[1..]);
      ReturnFrame(s.m, u.m, v.m, a, sp, sp - 16 * |xs|, xs[0]);
      t := Up(v, a);
      WordFrame(s.m, v.m, sp);
      RunAdd(s, 6, 9 * |xs[1..]| + 4);
      RunAdd(s, 6 + (9 * |xs[1..]| + 4), 3);
    }
  }

  lemma ReadyBelow(s: State, u: State, a: word, xs: seq<word>)
    requires Ready(s, a, xs) && xs != [] && StateOk(u) && u.pc == a
    requires u.r == s.r[RSI := xs[0]][RDI := WordAt(s.m, s.r[RDI] + 8)][RSP := s.r[RSP] - 16]
    requires u.m == Pushed(s.m, s.r[RSP], xs[0], a + 42)
    ensures Ready(u, a, xs[1..])
  {
    hide Pushed, WordAt, Loaded;
    var sp := s.r[RSP];
    PushedFacts(s.m, sp, xs[0], a + 42);
    LoadedFrame(s.m, u.m, a);
    ListFrame(s.m, u.m, WordAt(s.m, s.r[RDI] + 8), xs[1..], sp - 16 * |xs|, sp, sp - 16 * |xs|, sp - 16);
  }

  // What the caller finds after the recursive call: its two pushed words, the code,
  // and everything outside its stack as before.
  lemma ReturnFrame(m: seq<byte>, u: seq<byte>, v: seq<byte>, a: word, sp: int, low: int, val: word)
    requires Loaded(m, a) && a + 58 <= |m| < TWO63 && |v| == |m| && low <= sp - 16 && 16 <= sp <= |m|
    requires a + 58 <= low || sp <= a
    requires u == Pushed(m, sp, val, a + 42)
    requires forall i | 0 <= i < |m| && !(low <= i < sp - 16) :: v[i] == u[i]
    ensures WordAt(u, sp - 16) == a + 42 && WordAt(v, sp - 8) == val
    ensures Loaded(v, a)
    ensures forall i | 0 <= i < |m| && !(low <= i < sp) :: v[i] == m[i]
  {
    hide Pushed, WordAt, Loaded;
    PushedFacts(m, sp, val, a + 42);
    WordFrame(u, v, sp - 8);
    LoadedFrame(m, v, a);
  }

  // The same from the assembled bytes.
  lemma RsumOfCode(s: State, a: word, xs: seq<word>) returns (t: State)
    requires Called(s, a, xs) && CodeAt(s.m, a, Code(a))
    ensures Run(s, 9 * |xs| + 4) == (t, AOK) && StateOk(t)
    ensures t.pc == WordAt(s.m, s.r[RSP])
    ensures t.r[RAX] == Sum(xs) && t.r[RSP] == s.r[RSP] + 8
    ensures |t.m| == |s.m|
    ensures forall i | 0 <= i < |s.m| && !(s.r[RSP] - 16 * |xs| <= i < s.r[RSP]) :: t.m[i] == s.m[i]
  {
    hide Code, CodeAt, Run, WordAt, Loaded, IsList;
    LoadedCode(s.m, a);
    t := RsumCorrect(s, a, xs);
  }
}
