// rsum.ys as a whole: assembled, printed, loaded and run, it stops with the sum of its
// sample list in %rax.
module RsumProgram {
  import opened Common
  import opened Words
  import opened Isa
  import opened Execution
  import opened Yas
  import opened YasFacts
  import opened Assembled
  import opened Source
  import L = Listing
  import Rsum

  function At(disp: Option<Operand>, base: nat): Memory { Memory(disp, Some(base)) }

  // archlab-handout/sim/misc/rsum.ys, line by line
  function LineOf(k: nat): Line
    requires k < 41
  {
    match k
      case 0 => Blank
      case 1 => SetPos(0)
      case 2 => Code(ImmReg(Irmovq, Name("stack"), RSP))
      case 3 => Blank
      case 4 => Code(Dest(Call, Name("main")))
      case 5 => Code(Simple(Halt))
      case 6 => Blank
      case 7 => Blank
      case 8 => AlignTo(8)
      case 9 => Mark("ele1")
      case 10 => Datum(8, Number(0x00a))
      case 11 => Datum(8, Name("ele2"))
      case 12 => Mark("ele2")
      case 13 => Datum(8, Number(0x0b0))
      case 14 => Datum(8, Name("ele3"))
      case 15 => Mark("ele3")
      case 16 => Datum(8, Number(0xc00))
      case 17 => Datum(8, Number(0))
      case 18 => Blank
      case 19 => Mark("main")
      case 20 => Code(ImmReg(Irmovq, Name("ele1"), RDI))
      case 21 => Code(Dest(Call, Name("rsum_list")))
      case 22 => Code(Simple(Ret))
      case 23 => Blank
      case 24 => Mark("rsum_list")
      case 25 => Code(TwoRegs(Alu(A_AND), RDI, RDI))
      case 26 => Code(Dest(Jump(C_E), Name("base")))
      case 27 => Code(Load(At(None, RDI), RSI))
      case 28 => Code(Load(At(Some(Number(8)), RDI), RDI))
      case 29 => Code(OneReg(Pushq, RSI))
      case 30 => Code(Dest(Call, Name("rsum_list")))
      case 31 => Code(OneReg(Popq, RSI))
      case 32 => Code(TwoRegs(Alu(A_ADD), RSI, RAX))
      case 33 => Code(Simple(Ret))
      case 34 => Blank
      case 35 => Mark("base")
      case 36 => Code(ImmReg(Irmovq, Number(0), RAX))
      case 37 => Code(Simple(Ret))
      case 38 => Blank
      case 39 => SetPos(0x200)
      case _ => Mark("stack")
  }

  function Program(): (r: seq<Line>)
    ensures |r| == 41 && forall k | 0 <= k < 41 :: r[k] == LineOf(k)
  {
    seq(41, k requires 0 <= k < 41 => LineOf(k))
  }

  // The address of each line.
  function Place(k: nat): int
    requires k <= 41
  {
    if k < 3 then 0
    else if k < 5 then 10
    else if k < 6 then 19
    else if k < 9 then 20
    else if k < 11 then 24
    else if k < 12 then 32
    else if k < 14 then 40
    else if k < 15 then 48
    else if k < 17 then 56
    else if k < 18 then 64
    else if k < 21 then 72
    else if k < 22 then 82
    else if k < 23 then 91
    else if k < 26 then 92
    else if k < 27 then 94
    else if k < 28 then 103
    else if k < 29 then 113
    else if k < 30 then 123
    else if k < 31 then 125
    else if k < 32 then 134
    else if k < 33 then 136
    else if k < 34 then 138
    else if k < 37 then 139
    else if k < 38 then 149
    else if k < 40 then 150
    else 512
  }

  lemma LineIsOk(k: nat)
    requires k < 41
    ensures LineOk(LineOf(k))
  {
  }

  lemma ProgramIsOk()
    ensures ProgOk(Program())
  {
    hide LineOf, LineOk;
    forall k | 0 <= k < 41 ensures LineOk(LineOf(k)) {
      LineIsOk(k);
    }
  }

  // Place follows the lines.
  ghost predicate Steps(k: nat)
    requires k < 41
  {
    LineOk(LineOf(k)) && Place(k + 1) == After(LineOf(k), Place(k)) && Place(k) <= Place(k + 1) <= 512
  }

  lemma PlaceStepStart(k: nat)
    requires k < 9
    ensures Steps(k)
  {
  }

  lemma PlaceStepData(k: nat)
    requires 9 <= k < 20
    ensures Steps(k)
  {
  }

  lemma PlaceStepText(k: nat)
    requires 20 <= k < 41
    ensures Steps(k)
  {
  }

  lemma PlaceStep(k: nat)
    requires k < 41
    ensures Steps(k)
  {
    hide Steps;
    if k < 9 { PlaceStepStart(k); } else if k < 20 { PlaceStepData(k); } else { PlaceStepText(k); }
  }

  lemma {:induction false} PlacesAre(k: nat)
    requires k <= 41
    ensures ProgOk(Program()) && PosOf(Program(), k) == Place(k)
  {
    hide LineOf, Place, After, LineOk;
    ProgramIsOk();
    if k == 0 {
      FirstPlace();
    } else {
      PlacesAre(k - 1);
      PlaceStep(k - 1);
    }
  }

  lemma FirstPlace()
    ensures Place(0) == 0
  {
  }

  // ---------------------------------------------------------------------- symbols

  function Syms(): seq<(string, int)>
    requires ProgOk(Program()) && ProgramOk(AllToks(Program()))
  {
    Symbols(AllToks(Program()))
  }

  ghost predicate DataSyms(syms: seq<(string, int)>)
  {
    && FindSymbol(syms, "ele1") == Some(24)
    && FindSymbol(syms, "ele2") == Some(40)
    && FindSymbol(syms, "ele3") == Some(56)
  }

  ghost predicate SymsOk(syms: seq<(string, int)>)
  {
    && DataSyms(syms)
    && FindSymbol(syms, "stack") == Some(512)
    && FindSymbol(syms, "main") == Some(72)
    && FindSymbol(syms, "rsum_list") == Some(92)
    && FindSymbol(syms, "base") == Some(139)
  }

  lemma OneLabel(k: nat, name: string)
    requires k < 41 && LineOf(k) == Mark(name)
    requires forall j | 0 <= j < k :: LineOf(j) != Mark(name)
    ensures ProgOk(Program()) && ProgramOk(AllToks(Program()))
    ensures FindSymbol(Syms(), name) == Some(Place(k))
  {
    hide LineOf, Place, FindSymbol, LineOk, RegsOk, Toks;
    ProgramIsOk();
    ToksOk(Program());
    PlacesAre(k);
    DefinedAt(Program(), k, name);
  }

  lemma DataSymbolsAre()
    ensures ProgOk(Program()) && ProgramOk(AllToks(Program())) && DataSyms(Syms())
  {
    hide FindSymbol, LineOk, RegsOk, Toks, Program;
    OneLabel(9, "ele1");
    OneLabel(12, "ele2");
    OneLabel(15, "ele3");
  }

  lemma CodeSymbolsAre()
    ensures ProgOk(Program()) && ProgramOk(AllToks(Program()))
    ensures FindSymbol(Syms(), "main") == Some(72) && FindSymbol(Syms(), "rsum_list") == Some(92)
    ensures FindSymbol(Syms(), "base") == Some(139)
  {
    hide FindSymbol, LineOk, RegsOk, Toks, Program;
    OneLabel(19, "main");
    OneLabel(24, "rsum_list");
    OneLabel(35, "base");
  }

  lemma SymbolsAre()
    ensures ProgOk(Program()) && ProgramOk(AllToks(Program())) && SymsOk(Syms())
  {
    hide FindSymbol, LineOk, RegsOk, Toks, Program, DataSyms;
    DataSymbolsAre();
    CodeSymbolsAre();
    OneLabel(40, "stack");
  }

  // ------------------------------------------------------------------------- code

  // The bytes of each line that has any.
  function BytesAt(k: nat): seq<byte>
    requires k < 41
  {
    match k
      case 2 => WithBoth(0x30, 0xF4, 512)
      case 4 => WithImm(0x80, 72)
      case 5 => Plain(0x00)
      case 10 => ToBytes(0x00a, 8)
      case 11 => ToBytes(40, 8)
      case 13 => ToBytes(0x0b0, 8)
      case 14 => ToBytes(56, 8)
      case 16 => ToBytes(0xc00, 8)
      case 17 => ToBytes(0, 8)
      case 20 => WithBoth(0x30, 0xF7, 24)
      case 21 => WithImm(0x80, 92)
      case 22 => Plain(0x90)
      case 25 => WithRegs(0x62, 0x77)
      case 26 => WithImm(0x73, 139)
      case 27 => WithBoth(0x50, 0x67, 0)
      case 28 => WithBoth(0x50, 0x77, 8)
      case 29 => WithRegs(0xA0, 0x6F)
      case 30 => WithImm(0x80, 92)
      case 31 => WithRegs(0xB0, 0x6F)
      case 32 => WithRegs(0x60, 0x60)
      case 33 => Plain(0x90)
      case 36 => WithBoth(0x30, 0xF0, 0)
      case 37 => Plain(0x90)
      case _ => []
  }

  predicate HasBytes(k: nat)
  {
    k == 2 || 4 <= k <= 5 || 10 <= k <= 11 || 13 <= k <= 14 || 16 <= k <= 17 || 20 <= k <= 22 || 25 <= k <= 33 ||
      36 <= k <= 37
  }

  ghost predicate Emits(k: nat, syms: seq<(string, int)>)
    requires k < 41
  {
    LineOk(LineOf(k)) && BytesOf(LineOf(k), syms) == Some(BytesAt(k))
  }

  // The encodings of Execution.
  lemma Forms(m: Mnemonic, f: Fields)
    requires MnemonicOk(m) && IsInstruction(m) && f.hi < 16 && f.lo < 16 && 0 <= f.imm < TWO64
    ensures var c := Table(m).code; var r, i := NeedRegids(c / 16), NeedImm(c / 16);
      Encode(Table(m), f) ==
        if r then (if i then WithBoth(c, 16 * f.hi + f.lo, f.imm) else WithRegs(c, 16 * f.hi + f.lo))
        else if i then WithImm(c, f.imm) else Plain(c)
  {
    hide ToBytes;
  }

  lemma EmitsData(k: nat, syms: seq<(string, int)>)
    requires k < 20 && SymsOk(syms)
    ensures Emits(k, syms)
  {
    hide ToBytes, FindSymbol, Encode, WithBoth, WithRegs, WithImm, Plain;
    var l := LineOf(k);
    if l.Code? { Forms(NameOf(l.i), Meant(l.i, syms).value); }
  }

  lemma EmitsText(k: nat, syms: seq<(string, int)>)
    requires 20 <= k < 30 && SymsOk(syms)
    ensures Emits(k, syms)
  {
    hide ToBytes, FindSymbol, Encode, WithBoth, WithRegs, WithImm, Plain;
    var l := LineOf(k);
    if l.Code? { Forms(NameOf(l.i), Meant(l.i, syms).value); }
  }

  lemma EmitsRest(k: nat, syms: seq<(string, int)>)
    requires 30 <= k < 41 && SymsOk(syms)
    ensures Emits(k, syms)
  {
    hide ToBytes, FindSymbol, Encode, WithBoth, WithRegs, WithImm, Plain;
    var l := LineOf(k);
    if l.Code? { Forms(NameOf(l.i), Meant(l.i, syms).value); }
  }

  lemma EmitsAll(k: nat, syms: seq<(string, int)>)
    requires k < 41 && SymsOk(syms)
    ensures Emits(k, syms)
  {
    hide Emits, SymsOk;
    if k < 20 { EmitsData(k, syms); } else if k < 30 { EmitsText(k, syms); } else { EmitsRest(k, syms); }
  }

  lemma ProgramAccepted()
    ensures ProgOk(Program()) && ProgramOk(AllToks(Program())) && Accepted(AllToks(Program()))
  {
    hide LineOf, SymsOk, BytesAt, Program, RegsOk, LineOk, BytesOf, Place, After, Steps;
    SymbolsAre();
    forall k | 0 <= k < 41 ensures LineOk(Program()[k]) && Listable(Program(), k, Syms()) {
      ProgramLines(k);
      EmitsAll(k, Syms());
      PlacesAre(k);
      PlaceStep(k);
      InRange(k);
    }
    AcceptedIffDefined(Program());
  }

  lemma InRange(k: nat)
    requires k < 41 && Steps(k)
    ensures ShownAt(LineOf(k), Place(k)) <= 512
  {
    hide LineOf, Place, LineOk;
  }

  lemma ProgramLines(k: nat)
    requires k < 41
    ensures |Program()| == 41 && Program()[k] == LineOf(k)
  {
  }

  lemma ProgramForward(n: int)
    requires 512 <= n && ProgOk(Program()) && ProgramOk(AllToks(Program())) && Accepted(AllToks(Program()))
    ensures Forward(Assembled.Listing(AllToks(Program())), 0, n)
  {
    hide LineOf, Place, RegsOk, LineOk, Toks, Accepted, Assembled.Listing, Forward;
    forall j | 0 <= j < 41 ensures Climbs(Program(), j, n) {
      PlacesAre(j);
      PlacesAre(j + 1);
      PlaceStep(j);
    }
    ForwardFrom(Program(), 0, n);
    var out := Assembled.Listing(AllToks(Program()));
    assert out[0..] == out;
  }

  // The memory after loading rsum.yo, as the file yas writes for rsum.ys.
  function LoadedMemory(texts: seq<string>, m: seq<byte>): (r: seq<byte>)
    requires |texts| == 41 && 512 <= |m| < 0x8000_0000 && forall k | 0 <= k < 41 :: L.Short(texts[k])
    ensures |r| == |m|
  {
    ProgramAccepted();
    LoadedFrom(Program(), texts, m).m
  }

  lemma ShortTexts(out: seq<Listed>, texts: seq<string>)
    requires |out| == |texts| && forall k | 0 <= k < |texts| :: L.Short(texts[k])
    ensures forall k | 0 <= k < |texts| :: L.TextOk(texts[k]) && L.Inert(L.Tail(out[k], texts[k]))
  {
    hide L.TextOk, L.Inert, L.Tail;
    forall k | 0 <= k < |texts| ensures L.Inert(L.Tail(out[k], texts[k])) {
      L.ShortInert(out[k], texts[k]);
    }
  }

  lemma InMemory(texts: seq<string>, m: seq<byte>, k: nat)
    requires |texts| == 41 && 512 <= |m| < 0x8000_0000 && forall k | 0 <= k < 41 :: L.Short(texts[k])
    requires HasBytes(k)
    ensures CodeAt(LoadedMemory(texts, m), Place(k), BytesAt(k))
  {
    hide LineOf, Place, RegsOk, LineOk, Toks, Accepted, Assembled.Listing, Forward, CodeAt, SymsOk, BytesAt, BytesOf,
         L.Load, L.Print, L.Buffers, L.Printable, L.Inert, L.Tail, L.Image;
    ProgramAccepted();
    ProgramForward(|m|);
    Toolchain(Program(), texts, m);
    ShortTexts(Assembled.Listing(AllToks(Program())), texts);
    PrintableLine(Program(), k);
    PlacesAre(k);
    SymbolsAre();
    EmitsAll(k, Syms());
    NoBytes(k);
  }

  lemma NoBytes(k: nat)
    requires HasBytes(k)
    ensures !LineOf(k).SetPos? && !LineOf(k).AlignTo?
  {
  }

  // ------------------------------------------------------------------------- runs

  const SAMPLE: seq<word> := [0x00a, 0x0b0, 0xc00]

  // The parts of the program in memory; the stack is outside of them.
  ghost predicate Main(m: seq<byte>)
  {
    && 512 <= |m| < 0x8000_0000
    && CodeAt(m, 0, WithBoth(0x30, 0xF4, 512))
    && CodeAt(m, 10, WithImm(0x80, 72))
    && CodeAt(m, 19, Plain(0x00))
    && CodeAt(m, 72, WithBoth(0x30, 0xF7, 24))
    && CodeAt(m, 82, WithImm(0x80, 92))
    && CodeAt(m, 91, Plain(0x90))
    && Rsum.Loaded(m, 92)
    && Rsum.IsList(m, 24, SAMPLE, 448, 512)
  }

  ghost predicate AllLoaded(m: seq<byte>)
  {
    forall k: nat | HasBytes(k) :: CodeAt(m, Place(k), BytesAt(k))
  }

  lemma One(m: seq<byte>, k: nat)
    requires AllLoaded(m) && HasBytes(k)
    ensures CodeAt(m, Place(k), BytesAt(k))
  {
  }

  lemma SampleList(m: seq<byte>)
    requires 512 <= |m| && AllLoaded(m)
    ensures Rsum.IsList(m, 24, SAMPLE, 448, 512)
  {
    hide AllLoaded, CodeAt, ToBytes, WordAt;
    One(m, 10); One(m, 11); One(m, 13); One(m, 14); One(m, 16); One(m, 17);
    ImmAt(m, 24, 0x00a);
    ImmAt(m, 32, 40);
    ImmAt(m, 40, 0x0b0);
    ImmAt(m, 48, 56);
    ImmAt(m, 56, 0xc00);
    ImmAt(m, 64, 0);
    assert SAMPLE[1..] == [0x0b0, 0xc00] && SAMPLE[1..][1..] == [0xc00] && SAMPLE[1..][1..][1..] == [];
    assert Rsum.IsList(m, 0, [], 448, 512);
    assert Rsum.IsList(m, 56, SAMPLE[1..][1..], 448, 512);
    assert Rsum.IsList(m, 40, SAMPLE[1..], 448, 512);
  }

  lemma MainLoaded(m: seq<byte>)
    requires 512 <= |m| < 0x8000_0000 && AllLoaded(m)
    ensures Main(m)
  {
    hide AllLoaded, CodeAt, ToBytes, WithBoth, WithImm, WithRegs, Plain, Rsum.IsList;
    SampleList(m);
    One(m, 2); One(m, 4); One(m, 5); One(m, 20); One(m, 21); One(m, 22);
    One(m, 25); One(m, 26); One(m, 27); One(m, 28); One(m, 29); One(m, 30);
    One(m, 31); One(m, 32); One(m, 33); One(m, 36); One(m, 37);
  }

  lemma MainFrame(m: seq<byte>, m': seq<byte>)
    requires Main(m) && |m'| == |m| && forall i | 0 <= i < |m| && !(448 <= i < 512) :: m'[i] == m[i]
    ensures Main(m')
  {
    hide CodeAt, ToBytes, Rsum.IsList, Rsum.Loaded;
    CodeFrame(m, m', 0, WithBoth(0x30, 0xF4, 512));
    CodeFrame(m, m', 10, WithImm(0x80, 72));
    CodeFrame(m, m', 19, Plain(0x00));
    CodeFrame(m, m', 72, WithBoth(0x30, 0xF7, 24));
    CodeFrame(m, m', 82, WithImm(0x80, 92));
    CodeFrame(m, m', 91, Plain(0x90));
    Rsum.LoadedFrame(m, m', 92);
    Rsum.ListFrame(m, m', 24, SAMPLE, 448, 512, 448, 512);
  }

  lemma MainParts(m: seq<byte>)
    requires Main(m)
    ensures 512 <= |m| < 0x8000_0000 && Rsum.Loaded(m, 92) && Rsum.IsList(m, 24, SAMPLE, 448, 496)
  {
    hide Rsum.IsList, Rsum.Loaded, CodeAt;
    Rsum.ListFrame(m, m, 24, SAMPLE, 448, 512, 448, 496);
  }

  // The call of rsum_list: four instructions.
  lemma Enter(s: State) returns (t: State)
    requires StateOk(s) && s.pc == 0 && Main(s.m)
    ensures Run(s, 4) == (t, AOK) && StateOk(t) && t.pc == 92 && Main(t.m) && |t.m| == |s.m|
    ensures t.r == s.r[RSP := 496][RDI := 24]
    ensures WordAt(t.m, 504) == 19 && WordAt(t.m, 496) == 91
    ensures forall i | 0 <= i < |s.m| && !(496 <= i < 512) :: t.m[i] == s.m[i]
  {
    hide Step, Run, ComputeCC, CondHolds, WordAt, SetWord, CodeAt, ToBytes, WithRegs, WithImm, WithBoth, Plain,
         Rsum.IsList, Rsum.Loaded;
    StepIrmovq(s, 512, RSP);
    var s1 := Step(s).0;
    StepCall(s1, 72);
    var s2 := Step(s1).0;
    SetWordAt(s1.m, 504, 19);
    MainFrame(s1.m, s2.m);
    StepIrmovq(s2, 24, RDI);
    var s3 := Step(s2).0;
    StepCall(s3, 92);
    t := Step(s3).0;
    SetWordAt(s3.m, 496, 91);
    MainFrame(s3.m, t.m);
    WordFrame(s3.m, t.m, 504);
    RunOne(s, 4); RunOne(s1, 3); RunOne(s2, 2); RunOne(s3, 1);
    RunNone(t);
    assert t.r == s.r[RSP := 496][RDI := 24];
  }

  // Back in main: one instruction, then halt.
  lemma Leave(s: State) returns (t: State)
    requires StateOk(s) && s.pc == 91 && Main(s.m) && s.r[RSP] == 504 && WordAt(s.m, 504) == 19
    ensures Run(s, 1) == (t, AOK) && StateOk(t) && t.pc == 19 && t.m == s.m && t.r == s.r[RSP := 512]
    ensures Step(t) == (t, HLT)
  {
    hide Run, ComputeCC, CondHolds, WordAt, SetWord, CodeAt, ToBytes, Rsum.IsList, Rsum.Loaded;
    StepRet(s);
    t := Step(s).0;
    RunOne(s, 1);
    RunNone(t);
    FetchPlain(t.m, 19, 0x00);
  }

  // From source text to result: whatever the comments say and whatever memory and
  // registers held before, the program assembled from rsum.ys, printed and loaded, runs
  // 36 instructions and halts with the sum of the sample list in %rax.
  lemma ProgramSums(texts: seq<string>, m: seq<byte>, s: State) returns (t: State)
    requires |texts| == 41 && 512 <= |m| < 0x8000_0000 && forall k | 0 <= k < 41 :: L.Short(texts[k])
    requires StateOk(s) && s.pc == 0 && s.m == LoadedMemory(texts, m)
    ensures Run(s, 36) == (t, AOK) && StateOk(t) && Step(t) == (t, HLT)
    ensures t.r[RAX] == 0xcba && t.r[RSP] == 512
    ensures |t.m| == |s.m| && forall i | 0 <= i < |s.m| && !(448 <= i < 512) :: t.m[i] == s.m[i]
  {
    hide LoadedMemory, L.Short, Run, Step, WordAt, Main, AllLoaded, BytesAt, Place, CodeAt, Rsum.IsList, Rsum.Loaded;
    forall k: nat | HasBytes(k) ensures CodeAt(s.m, Place(k), BytesAt(k)) {
      InMemory(texts, m, k);
    }
    AllIn(s.m);
    MainLoaded(s.m);
    var s1 := Enter(s);
    MainParts(s1.m);
    var s2 := Rsum.RsumCorrect(s1, 92, SAMPLE);
    SampleSum();
    MainFrame(s1.m, s2.m);
    WordFrame(s1.m, s2.m, 504);
    t := Leave(s2);
    RunAdd(s, 4, 31);
    RunAdd(s, 35, 1);
  }

  lemma AllIn(m: seq<byte>)
    requires forall k: nat | HasBytes(k) :: CodeAt(m, Place(k), BytesAt(k))
    ensures AllLoaded(m)
  {
  }

  lemma SampleSum()
    ensures Rsum.Sum(SAMPLE) == 0xcba
  {
    assert SAMPLE[1..] == [0x0b0, 0xc00] && SAMPLE[1..][1..] == [0xc00] && SAMPLE[1..][1..][1..] == [];
    assert Rsum.Sum(SAMPLE[1..][1..]) == 0xc00;
    assert Rsum.Sum(SAMPLE[1..]) == 0xcb0;
  }
}
