// copy.ys as a whole: assembled, printed, loaded and run, it copies its source block to
// the destination block and stops with the checksum in %rax.
module CopyRun {
  import opened Arith
  import opened Common
  import opened Words
  import opened Isa
  import opened Execution
  import opened Yas
  import opened YasFacts
  import opened Assembled
  import opened Source
  import opened CopyProgram
  import L = Listing
  import R = RsumProgram
  import CopyBlock

  // archlab-handout/sim/misc/copy.ys, line by line
  function LineOf(k: nat): Line
    requires k < 47
  {
    if 26 <= k < 44 then CopyLine(k - 26)
    else
      match k
        case 1 => SetPos(0)
        case 2 => Code(ImmReg(Irmovq, Name("stack"), RSP))
        case 4 => Code(Dest(Call, Name("main")))
        case 5 => Code(Simple(Halt))
        case 7 => AlignTo(8)
        case 9 => Mark("src")
        case 10 => Datum(8, Number(0x00a))
        case 11 => Datum(8, Number(0x0b0))
        case 12 => Datum(8, Number(0xc00))
        case 14 => Mark("dest")
        case 15 => Datum(8, Number(0x111))
        case 16 => Datum(8, Number(0x222))
        case 17 => Datum(8, Number(0x333))
        case 19 => Mark("main")
        case 20 => Code(ImmReg(Irmovq, Name("src"), RDI))
        case 21 => Code(ImmReg(Irmovq, Name("dest"), RSI))
        case 22 => Code(ImmReg(Irmovq, Number(3), RDX))
        case 23 => Code(Dest(Call, Name("copy")))
        case 24 => Code(Simple(Ret))
        case 45 => SetPos(0x200)
        case 46 => Mark("stack")
        case _ => Blank
  }

  function Program(): (r: seq<Line>)
    ensures |r| == 47 && forall k | 0 <= k < 47 :: r[k] == LineOf(k)
  {
    seq(47, k requires 0 <= k < 47 => LineOf(k))
  }

  // The address of each line.
  function Place(k: nat): int
    requires k <= 47
  {
    if k < 3 then 0 else if k < 5 then 10 else if k < 6 then 19 else if k < 8 then 20
    else if k < 11 then 24 else if k < 12 then 32 else if k < 13 then 40
    else if k < 16 then 48 else if k < 17 then 56 else if k < 18 then 64
    else if k < 21 then 72 else if k < 22 then 82 else if k < 23 then 92 else if k < 24 then 102 else if k < 25 then 111
    else if k < 26 then 112 else if k <= 44 then 112 + Shift(k - 26) else if k < 46 then 191 else 512
  }

  // Place follows the lines.
  ghost predicate Steps(k: nat)
    requires k < 47
  {
    LineOk(LineOf(k)) && Place(k + 1) == After(LineOf(k), Place(k)) && Place(k) <= Place(k + 1) <= 512
  }

  lemma PlaceStepStart(k: nat)
    requires k < 26
    ensures Steps(k)
  {
    hide Shift, CopyLine;
    assert Place(26) == 112 by { NoShift(); }
  }

  lemma PlaceStepCopy(k: nat)
    requires 26 <= k < 44
    ensures Steps(k)
  {
    hide CopyLine, After;
    ShiftStep(k - 26, 112);
  }

  lemma PlaceStepEnd(k: nat)
    requires 44 <= k < 47
    ensures Steps(k)
  {
    hide CopyLine;
  }

  lemma PlaceStep(k: nat)
    requires k < 47
    ensures Steps(k)
  {
    hide Steps;
    if k < 26 { PlaceStepStart(k); } else if k < 44 { PlaceStepCopy(k); } else { PlaceStepEnd(k); }
  }

  lemma ProgramIsOk()
    ensures ProgOk(Program())
  {
    hide LineOf, LineOk, Place, After;
    forall k | 0 <= k < 47 ensures LineOk(LineOf(k)) {
      PlaceStep(k);
    }
  }

  lemma {:induction false} PlacesAre(k: nat)
    requires k <= 47
    ensures ProgOk(Program()) && PosOf(Program(), k) == Place(k)
  {
    hide LineOf, Place, After, LineOk;
    ProgramIsOk();
    if k == 0 {
      FirstPlace();
    } else {
      PlacesAre(k - 1);
      PlaceStep(k - 1);
    }
  }

  lemma FirstPlace()
    ensures Place(0) == 0
  {
  }

  // ---------------------------------------------------------------------- symbols

  function Syms(): seq<(string, int)>
    requires ProgOk(Program()) && ProgramOk(AllToks(Program()))
  {
    Symbols(AllToks(Program()))
  }

  ghost predicate MainSyms(syms: seq<(string, int)>)
  {
    && FindSymbol(syms, "src") == Some(24) && FindSymbol(syms, "dest") == Some(48)
    && FindSymbol(syms, "main") == Some(72) && FindSymbol(syms, "copy") == Some(112)
    && FindSymbol(syms, "stack") == Some(512)
  }

  ghost predicate CopySyms(syms: seq<(string, int)>)
  {
    FindSymbol(syms, "loop") == Some(142) && FindSymbol(syms, "done") == Some(190)
  }

  lemma OneLabel(k: nat, name: string)
    requires k < 47 && LineOf(k) == Mark(name)
    requires forall j | 0 <= j < k :: LineOf(j) != Mark(name)
    ensures ProgOk(Program()) && ProgramOk(AllToks(Program()))
    ensures FindSymbol(Syms(), name) == Some(Place(k))
  {
    hide LineOf, Place, FindSymbol, LineOk, RegsOk, Toks;
    ProgramIsOk();
    ToksOk(Program());
    PlacesAre(k);
    DefinedAt(Program(), k, name);
  }

  lemma MainSymbolsAre()
    ensures ProgOk(Program()) && ProgramOk(AllToks(Program())) && MainSyms(Syms())
  {
    hide FindSymbol, LineOk, RegsOk, Toks, Program;
    NoShift();
    OneLabel(9, "src");
    OneLabel(14, "dest");
    OneLabel(19, "main");
    OneLabel(26, "copy");
    OneLabel(46, "stack");
  }

  lemma CopyThere()
    ensures Contains(Program(), 26)
    ensures forall j | 0 <= j < 26 :: Program()[j] != Mark("loop") && Program()[j] != Mark("done")
  {
    hide CopyLine;
  }

  lemma SymbolsAre()
    ensures ProgOk(Program()) && ProgramOk(AllToks(Program())) && MainSyms(Syms()) && CopySyms(Syms())
  {
    hide FindSymbol, LineOk, RegsOk, Toks, Program, MainSyms, Contains, PosOf, Shift, Symbols;
    assert Place(26) == 112 by { NoShift(); }
    MainSymbolsAre();
    CopyThere();
    PlacesAre(26);
    NoShift();
    Labels(Program(), 26);
  }

  // ------------------------------------------------------------------------- code

  // The bytes of each line outside copy that has any.
  function BytesAt(k: nat): seq<byte>
    requires k < 47
  {
    match k
      case 2 => WithBoth(0x30, 0xF4, 512)
      case 4 => WithImm(0x80, 72)
      case 5 => Plain(0x00)
      case 10 => ToBytes(0x00a, 8)
      case 11 => ToBytes(0x0b0, 8)
      case 12 => ToBytes(0xc00, 8)
      case 15 => ToBytes(0x111, 8)
      case 16 => ToBytes(0x222, 8)
      case 17 => ToBytes(0x333, 8)
      case 20 => WithBoth(0x30, 0xF7, 24)
      case 21 => WithBoth(0x30, 0xF6, 48)
      case 22 => WithBoth(0x30, 0xF2, 3)
      case 23 => WithImm(0x80, 112)
      case 24 => Plain(0x90)
      case _ => []
  }

  predicate HasBytes(k: nat) { k == 2 || 4 <= k <= 5 || 10 <= k <= 12 || 15 <= k <= 17 || 20 <= k <= 24 }

  ghost predicate Emits(k: nat, syms: seq<(string, int)>)
    requires k < 47
  {
    LineOk(LineOf(k)) && BytesOf(LineOf(k), syms).Some? && (k < 26 ==> BytesOf(LineOf(k), syms).value == BytesAt(k))
  }

  lemma EmitsMain(k: nat, syms: seq<(string, int)>)
    requires (k < 26 || 44 <= k < 47) && MainSyms(syms)
    ensures Emits(k, syms)
  {
    hide ToBytes, FindSymbol, Encode, WithBoth, WithRegs, WithImm, Plain, CopyLine;
    var l := LineOf(k);
    if l.Code? { R.Forms(NameOf(l.i), Meant(l.i, syms).value); }
  }

  lemma EmitsAll(k: nat, syms: seq<(string, int)>)
    requires k < 47 && MainSyms(syms) && CopySyms(syms)
    ensures Emits(k, syms)
  {
    hide MainSyms, CopyLine, BytesOf, LineOk, FindSymbol;
    if 26 <= k < 44 { CopyEmits(k - 26, 112, syms); } else { EmitsMain(k, syms); }
  }

  lemma ProgramAccepted()
    ensures ProgOk(Program()) && ProgramOk(AllToks(Program())) && Accepted(AllToks(Program()))
  {
    hide LineOf, MainSyms, CopySyms, BytesAt, Program, RegsOk, LineOk, BytesOf, Place, After, Steps;
    SymbolsAre();
    forall k | 0 <= k < 47 ensures LineOk(Program()[k]) && Listable(Program(), k, Syms()) {
      ProgramLines(k);
      EmitsAll(k, Syms());
      PlacesAre(k);
      PlaceStep(k);
      InRange(k);
    }
    AcceptedIffDefined(Program());
  }

  lemma InRange(k: nat)
    requires k < 47 && Steps(k)
    ensures ShownAt(LineOf(k), Place(k)) <= 512
  {
    hide LineOf, Place, LineOk;
  }

  lemma ProgramLines(k: nat)
    requires k < 47
    ensures |Program()| == 47 && Program()[k] == LineOf(k)
  {
  }

  lemma ProgramForward(n: int)
    requires 512 <= n && ProgOk(Program()) && ProgramOk(AllToks(Program())) && Accepted(AllToks(Program()))
    ensures Forward(Assembled.Listing(AllToks(Program())), 0, n)
  {
    hide LineOf, Place, RegsOk, LineOk, Toks, Accepted, Assembled.Listing, Forward;
    forall j | 0 <= j < 47 ensures Climbs(Program(), j, n) {
      PlacesAre(j);
      PlacesAre(j + 1);
      PlaceStep(j);
    }
    ForwardFrom(Program(), 0, n);
    var out := Assembled.Listing(AllToks(Program()));
    assert out[0..] == out;
  }

  // The memory after loading copy.yo, as the file yas writes for copy.ys.
  function LoadedMemory(texts: seq<string>, m: seq<byte>): (r: seq<byte>)
    requires |texts| == 47 && 512 <= |m| < 0x8000_0000 && forall k | 0 <= k < 47 :: L.Short(texts[k])
    ensures |r| == |m|
  {
    ProgramAccepted();
    LoadedFrom(Program(), texts, m).m
  }

  // Every line's bytes are at its address.
  lemma LinesInMemory(texts: seq<string>, m: seq<byte>)
    requires |texts| == 47 && 512 <= |m| < 0x8000_0000 && forall k | 0 <= k < 47 :: L.Short(texts[k])
    ensures ProgOk(Program()) && ProgramOk(AllToks(Program())) && Accepted(AllToks(Program()))
    ensures |Assembled.Listing(AllToks(Program()))| == 47
    ensures var out := Assembled.Listing(AllToks(Program()));
      forall k | 0 <= k < 47 :: CodeAt(LoadedMemory(texts, m), out[k].pos, out[k].bytes)
  {
    hide RegsOk, LineOk, Toks, Accepted, Assembled.Listing, Forward, CodeAt, L.Load, L.Print, L.Buffers, L.Printable,
         L.Inert, L.Tail, L.Image, L.TextOk;
    ProgramAccepted();
    ProgramForward(|m|);
    ShortAll(texts);
    Toolchain(Program(), texts, m);
    R.ShortTexts(Assembled.Listing(AllToks(Program())), texts);
  }

  lemma ShortAll(texts: seq<string>)
    requires forall k | 0 <= k < |texts| :: L.Short(texts[k])
    ensures forall k | 0 <= k < |texts| :: L.TextOk(texts[k])
  {
  }

  lemma CopyInMemory(texts: seq<string>, m: seq<byte>)
    requires |texts| == 47 && 512 <= |m| < 0x8000_0000 && forall k | 0 <= k < 47 :: L.Short(texts[k])
    ensures CopyBlock.Loaded(LoadedMemory(texts, m), 112)
  {
    hide RegsOk, LineOk, Toks, Accepted, Assembled.Listing, CodeAt, LoadedMemory, CopyBlock.Loaded, Contains, L.Short;
    LinesInMemory(texts, m);
    CopyThere();
    PlacesAre(26);
    NoShift();
    CopyAssembled(Program(), 26, LoadedMemory(texts, m));
  }

  lemma InMemory(texts: seq<string>, m: seq<byte>, k: nat)
    requires |texts| == 47 && 512 <= |m| < 0x8000_0000 && forall k | 0 <= k < 47 :: L.Short(texts[k])
    requires HasBytes(k)
    ensures CodeAt(LoadedMemory(texts, m), Place(k), BytesAt(k))
  {
    hide LineOf, Place, RegsOk, LineOk, Toks, Accepted, Assembled.Listing, CodeAt, MainSyms, CopySyms, BytesAt,
         BytesOf, LoadedMemory, L.Short, L.Printable;
    LinesInMemory(texts, m);
    PrintableLine(Program(), k);
    PlacesAre(k);
    SymbolsAre();
    EmitsAll(k, Syms());
    NoPlacing(k);
  }

  lemma NoPlacing(k: nat)
    requires HasBytes(k)
    ensures !LineOf(k).SetPos? && !LineOf(k).AlignTo?
  {
  }

  // ------------------------------------------------------------------------- runs

  // The parts of the program in memory; the stack is outside of them.
  ghost predicate Main(m: seq<byte>)
  {
    && 512 <= |m| < 0x8000_0000
    && CodeAt(m, 0, WithBoth(0x30, 0xF4, 512))
    && CodeAt(m, 10, WithImm(0x80, 72))
    && CodeAt(m, 19, Plain(0x00))
    && CodeAt(m, 72, WithBoth(0x30, 0xF7, 24))
    && CodeAt(m, 82, WithBoth(0x30, 0xF6, 48))
    && CodeAt(m, 92, WithBoth(0x30, 0xF2, 3))
    && CodeAt(m, 102, WithImm(0x80, 112))
    && CodeAt(m, 111, Plain(0x90))
    && CopyBlock.Loaded(m, 112)
  }

  // The source block.
  ghost predicate Source3(m: seq<byte>)
  {
    512 <= |m| && WordAt(m, 24) == 0x00a && WordAt(m, 32) == 0x0b0 && WordAt(m, 40) == 0xc00
  }

  lemma MainLoaded(texts: seq<string>, m: seq<byte>)
    requires |texts| == 47 && 512 <= |m| < 0x8000_0000 && forall k | 0 <= k < 47 :: L.Short(texts[k])
    ensures Main(LoadedMemory(texts, m)) && Source3(LoadedMemory(texts, m))
  {
    hide CodeAt, ToBytes, WithBoth, WithImm, WithRegs, Plain, CopyBlock.Loaded, LoadedMemory, WordAt, L.Short;
    CopyInMemory(texts, m);
    InMemory(texts, m, 2); InMemory(texts, m, 4); InMemory(texts, m, 5);
    InMemory(texts, m, 20); InMemory(texts, m, 21); InMemory(texts, m, 22); InMemory(texts, m, 23);
    InMemory(texts, m, 24);
    InMemory(texts, m, 10); InMemory(texts, m, 11); InMemory(texts, m, 12);
    var r := LoadedMemory(texts, m);
    ImmAt(r, 24, 0x00a);
    ImmAt(r, 32, 0x0b0);
    ImmAt(r, 40, 0xc00);
  }

  // Changes in the destination block and in the stack leave the program alone.
  lemma MainFrame(m: seq<byte>, m': seq<byte>)
    requires Main(m) && |m'| == |m| && forall i | 0 <= i < |m| && !(48 <= i < 72) && !(496 <= i < 512) :: m'[i] == m[i]
    ensures Main(m') && (Source3(m) ==> Source3(m'))
  {
    hide CodeAt, ToBytes, CopyBlock.Loaded, WordAt;
    CodeFrame(m, m', 0, WithBoth(0x30, 0xF4, 512));
    CodeFrame(m, m', 10, WithImm(0x80, 72));
    CodeFrame(m, m', 19, Plain(0x00));
    CodeFrame(m, m', 72, WithBoth(0x30, 0xF7, 24));
    CodeFrame(m, m', 82, WithBoth(0x30, 0xF6, 48));
    CodeFrame(m, m', 92, WithBoth(0x30, 0xF2, 3));
    CodeFrame(m, m', 102, WithImm(0x80, 112));
    CodeFrame(m, m', 111, Plain(0x90));
    CopyBlock.LoadedFrame(m, m', 112);
    WordFrame(m, m', 24);
    WordFrame(m, m', 32);
    WordFrame(m, m', 40);
  }

  // Into main: two instructions.
  lemma Start(s: State) returns (t: State)
    requires StateOk(s) && s.pc == 0 && Main(s.m)
    ensures Run(s, 2) == (t, AOK) && StateOk(t) && t.pc == 72 && Main(t.m) && |t.m| == |s.m|
    ensures t.r == s.r[RSP := 504] && WordAt(t.m, 504) == 19 && (Source3(s.m) ==> Source3(t.m))
    ensures forall i | 0 <= i < |s.m| && !(496 <= i < 512) :: t.m[i] == s.m[i]
  {
    hide Step, Run, ComputeCC, CondHolds, WordAt, SetWord, CodeAt, ToBytes, WithRegs, WithImm, WithBoth, Plain,
         CopyBlock.Loaded, Source3;
    StepIrmovq(s, 512, RSP);
    var s1 := Step(s).0;
    StepCall(s1, 72);
    t := Step(s1).0;
    SetWordAt(s1.m, 504, 19);
    MainFrame(s1.m, t.m);
    RunOne(s, 2); RunOne(s1, 1);
    RunNone(t);
    assert t.r == s.r[RSP := 504];
  }

  // The call of copy: four instructions.
  lemma Enter(s: State) returns (t: State)
    requires StateOk(s) && s.pc == 72 && Main(s.m) && s.r[RSP] == 504 && WordAt(s.m, 504) == 19
    ensures Run(s, 4) == (t, AOK) && StateOk(t) && t.pc == 112 && Main(t.m) && |t.m| == |s.m|
    ensures t.r == s.r[RDI := 24][RSI := 48][RDX := 3][RSP := 496]
    ensures WordAt(t.m, 504) == 19 && WordAt(t.m, 496) == 111 && (Source3(s.m) ==> Source3(t.m))
    ensures forall i | 0 <= i < |s.m| && !(496 <= i < 512) :: t.m[i] == s.m[i]
  {
    hide Step, Run, ComputeCC, CondHolds, WordAt, SetWord, CodeAt, ToBytes, WithRegs, WithImm, WithBoth, Plain,
         CopyBlock.Loaded, Source3;
    StepIrmovq(s, 24, RDI);
    var s1 := Step(s).0;
    StepIrmovq(s1, 48, RSI);
    var s2 := Step(s1).0;
    StepIrmovq(s2, 3, RDX);
    var s3 := Step(s2).0;
    StepCall(s3, 112);
    t := Step(s3).0;
    SetWordAt(s3.m, 496, 111);
    MainFrame(s3.m, t.m);
    WordFrame(s3.m, t.m, 504);
    RunOne(s, 4); RunOne(s1, 3); RunOne(s2, 2); RunOne(s3, 1);
    RunNone(t);
    assert t.r == s.r[RDI := 24][RSI := 48][RDX := 3][RSP := 496];
  }

  // Back in main: one instruction, then halt.
  lemma Leave(s: State) returns (t: State)
    requires StateOk(s) && s.pc == 111 && Main(s.m) && s.r[RSP] == 504 && WordAt(s.m, 504) == 19
    ensures Run(s, 1) == (t, AOK) && StateOk(t) && t.pc == 19 && t.m == s.m && t.r == s.r[RSP := 512]
    ensures Step(t) == (t, HLT)
  {
    hide Run, ComputeCC, CondHolds, WordAt, SetWord, CodeAt, ToBytes, CopyBlock.Loaded;
    StepRet(s);
    t := Step(s).0;
    RunOne(s, 1);
    RunNone(t);
    FetchPlain(t.m, 19, 0x00);
  }

  // ---- the checksum

  // A number below 2^k and a multiple of 2^k have no bit in common.
  lemma {:induction false} XorApart(a: int, b: int, k: nat, n: nat)
    requires 0 <= a < Pow2(k) && 0 <= b && k <= n && b * Pow2(k) < Pow2(n)
    ensures XorBits(a, b * Pow2(k), n) == a + b * Pow2(k)
    decreases k
  {
    if k == 0 {
      XorBitsFacts(b, 0, n);
      XorBitsFacts(0, b, n);
    } else {
      var c := b * Pow2(k - 1);
      assert b * Pow2(k) == 2 * c;
      XorApart(a / 2, b, k - 1, n - 1);
    }
  }

  lemma SampleXor()
    ensures Xor(0, 0x00a) == 0x00a && Xor(0x00a, 0x0b0) == 0x0ba && Xor(0x0ba, 0xc00) == 0xcba
  {
    XorFacts(0x00a, 0);
    TwoTo64();
    assert Pow2(4) == 16 && Pow2(10) == 1024 by { assert Pow2(8) == 256; }
    XorApart(0x00a, 11, 4, 64);
    XorApart(0x0ba, 3, 10, 64);
  }

  // The three words copied one by one.
  lemma SampleCopied(m: seq<byte>)
    requires Source3(m)
    ensures CopyBlock.CopySum(m, 24, 48, 3, 0) == 0xcba
    ensures var r := CopyBlock.CopyMem(m, 24, 48, 3);
      && WordAt(r, 48) == 0x00a && WordAt(r, 56) == 0x0b0 && WordAt(r, 64) == 0xc00
      && forall i | 0 <= i < |m| && !(48 <= i < 72) :: r[i] == m[i]
  {
    hide WordAt, SetWord, Xor, ToBytes, FromBytes;
    SampleXor();
    var m1 := SetWord(m, 48, 0x00a);
    SetWordAt(m, 48, 0x00a);
    WordFrame(m, m1, 32);
    WordFrame(m, m1, 40);
    var m2 := SetWord(m1, 56, 0x0b0);
    SetWordAt(m1, 56, 0x0b0);
    WordFrame(m1, m2, 40);
    WordFrame(m1, m2, 48);
    var m3 := SetWord(m2, 64, 0xc00);
    SetWordAt(m2, 64, 0xc00);
    WordFrame(m2, m3, 48);
    WordFrame(m2, m3, 56);
    assert CopyBlock.CopyMem(m3, 48, 72, 0) == m3;
    assert CopyBlock.CopyMem(m2, 40, 64, 1) == m3;
    assert CopyBlock.CopyMem(m1, 32, 56, 2) == m3;
    assert CopyBlock.CopyMem(m, 24, 48, 3) == m3;
    assert CopyBlock.CopySum(m3, 48, 72, 0, 0xcba) == 0xcba;
    assert CopyBlock.CopySum(m2, 40, 64, 1, 0x0ba) == 0xcba;
    assert CopyBlock.CopySum(m1, 32, 56, 2, 0x00a) == 0xcba;
  }

  // From source text to result: whatever the comments say and whatever memory and
  // registers held before, the program assembled from copy.ys, printed and loaded, runs
  // 40 instructions and halts with the source block copied over the destination block
  // and the xor of its words in %rax.
  lemma ProgramCopies(texts: seq<string>, m: seq<byte>, s: State) returns (t: State)
    requires |texts| == 47 && 512 <= |m| < 0x8000_0000 && forall k | 0 <= k < 47 :: L.Short(texts[k])
    requires StateOk(s) && s.pc == 0 && s.m == LoadedMemory(texts, m)
    ensures Run(s, 40) == (t, AOK) && StateOk(t) && Step(t) == (t, HLT)
    ensures t.r[RAX] == 0xcba && t.r[RSP] == 512 && |t.m| == |s.m|
    ensures WordAt(t.m, 48) == 0x00a && WordAt(t.m, 56) == 0x0b0 && WordAt(t.m, 64) == 0xc00
    ensures forall i | 0 <= i < |s.m| && !(48 <= i < 72) && !(496 <= i < 512) :: t.m[i] == s.m[i]
  {
    hide LoadedMemory, L.Short, Run, Step, WordAt, Main, CodeAt, CopyBlock.Loaded, CopyBlock.CopyMem,
         CopyBlock.CopySum, Source3;
    MainLoaded(texts, m);
    var s1 := Start(s);
    var s2 := Enter(s1);
    MainCopy(s2.m);
    var s3 := CopyBlock.CopyCorrect(s2, 112, 24, 48, 3);
    SampleCopied(s2.m);
    MainFrame(s2.m, s3.m);
    WordFrame(s2.m, s3.m, 504);
    t := Leave(s3);
    RunAdd(s, 2, 4);
    RunAdd(s, 6, 33);
    RunAdd(s, 39, 1);
  }

  lemma MainCopy(m: seq<byte>)
    requires Main(m)
    ensures 512 <= |m| < 0x8000_0000 && CopyBlock.Loaded(m, 112)
  {
  }
}
