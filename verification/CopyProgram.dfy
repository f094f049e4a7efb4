// copy of copy.ys, wherever a program puts it: the assembler lays down the code that
// CopyBlock runs.
module CopyProgram {
  import opened Common
  import opened Words
  import opened Isa
  import opened Execution
  import opened Yas
  import opened YasFacts
  import opened Assembled
  import opened Source
  import opened RsumProgram
  import CopyBlock

  // archlab-handout/sim/misc/copy.ys, from the label copy on
  function CopyLine(k: nat): Line
    requires k < 18
  {
    match k
      case 0 => Mark("copy")
      case 1 => Code(ImmReg(Irmovq, Number(0), RAX))
      case 2 => Code(ImmReg(Irmovq, Number(8), R8))
      case 3 => Code(ImmReg(Irmovq, Number(1), R9))
      case 4 => Blank
      case 5 => Mark("loop")
      case 6 => Code(TwoRegs(Alu(A_AND), RDX, RDX))
      case 7 => Code(Dest(Jump(C_LE), Name("done")))
      case 8 => Code(Load(At(None, RDI), RCX))
      case 9 => Code(TwoRegs(Alu(A_ADD), R8, RDI))
      case 10 => Code(Store(RCX, At(None, RSI)))
      case 11 => Code(TwoRegs(Alu(A_ADD), R8, RSI))
      case 12 => Code(TwoRegs(Alu(A_XOR), RCX, RAX))
      case 13 => Code(TwoRegs(Alu(A_SUB), R9, RDX))
      case 14 => Code(Dest(Jump(C_YES), Name("loop")))
      case 15 => Blank
      case 16 => Mark("done")
      case _ => Code(Simple(Ret))
  }

  // Where line k is when copy is at 0.
  function Shift(k: nat): int
    requires k <= 18
  {
    if k <= 1 then 0 else if k == 2 then 10 else if k == 3 then 20 else if k <= 6 then 30 else if k == 7 then 32
    else if k == 8 then 41 else if k == 9 then 51 else if k == 10 then 53 else if k == 11 then 63
    else if k == 12 then 65
    else if k == 13 then 67 else if k == 14 then 69 else if k <= 17 then 78 else 79
  }

  // The lines of copy stand in ls from line n on.
  ghost predicate Contains(ls: seq<Line>, n: nat)
  {
    n + 18 <= |ls| && forall k | 0 <= k < 18 :: ls[n+k] == CopyLine(k)
  }

  lemma ShiftStep(k: nat, a: int)
    requires k < 18
    ensures LineOk(CopyLine(k)) && After(CopyLine(k), a + Shift(k)) == a + Shift(k + 1)
  {
  }

  lemma {:induction false} CopyPlaces(ls: seq<Line>, n: nat, k: nat)
    requires ProgOk(ls) && Contains(ls, n) && k <= 18
    ensures PosOf(ls, n + k) == PosOf(ls, n) + Shift(k)
  {
    hide CopyLine, Shift, After;
    if k == 0 {
      NoShift();
    } else {
      CopyPlaces(ls, n, k - 1);
      ShiftStep(k - 1, PosOf(ls, n));
      NextPosOf(ls, n + k - 1);
      assert ls[n+(k-1)] == CopyLine(k - 1);
    }
  }

  lemma NoShift()
    ensures Shift(0) == 0
  {
  }

  // The bytes of line k for a copy at a.
  function CopyBytes(a: word, k: nat): seq<byte>
    requires k < 18 && a < TWO63
  {
    match k
      case 1 => WithBoth(0x30, 0xF0, 0)
      case 2 => WithBoth(0x30, 0xF8, 8)
      case 3 => WithBoth(0x30, 0xF9, 1)
      case 6 => WithRegs(0x62, 0x22)
      case 7 => WithImm(0x71, a + 78)
      case 8 => WithBoth(0x50, 0x17, 0)
      case 9 => WithRegs(0x60, 0x87)
      case 10 => WithBoth(0x40, 0x16, 0)
      case 11 => WithRegs(0x60, 0x86)
      case 12 => WithRegs(0x63, 0x10)
      case 13 => WithRegs(0x61, 0x92)
      case 14 => WithImm(0x70, a + 30)
      case 17 => Plain(0x90)
      case _ => []
  }

  lemma CopyEmits(k: nat, a: word, syms: seq<(string, int)>)
    requires k < 18 && a < TWO63 && FindSymbol(syms, "loop") == Some(a + 30) && FindSymbol(syms, "done") == Some(a + 78)
    ensures LineOk(CopyLine(k)) && BytesOf(CopyLine(k), syms) == Some(CopyBytes(a, k))
  {
    hide ToBytes, FindSymbol, Encode, WithBoth, WithRegs, WithImm, Plain;
    var l := CopyLine(k);
    if l.Code? { Forms(NameOf(l.i), Meant(l.i, syms).value); }
  }

  // Any accepted program that contains copy's lines, and no earlier loop or done label,
  // has the code of CopyBlock at the address of those lines once its bytes are in
  // memory, so CopyCorrect holds of it.
  lemma CopyAssembled(ls: seq<Line>, n: nat, m: seq<byte>)
    requires ProgOk(ls) && ProgramOk(AllToks(ls)) && Accepted(AllToks(ls)) && Contains(ls, n)
    requires forall j | 0 <= j < n :: ls[j] != Mark("loop") && ls[j] != Mark("done")
    requires 0 <= PosOf(ls, n) < TWO63 - 100
    requires |Assembled.Listing(AllToks(ls))| == |ls|
    requires forall j | 0 <= j < |ls| ::
      CodeAt(m, Assembled.Listing(AllToks(ls))[j].pos, Assembled.Listing(AllToks(ls))[j].bytes)
    ensures CopyBlock.Loaded(m, PosOf(ls, n))
  {
    hide CodeAt, WithBoth, WithRegs, WithImm, Plain, CopyLine, Accepted, Assembled.Listing, PosOf, RegsOk, Toks,
         LineOk, FindSymbol, Symbols, BytesOf;
    var a := PosOf(ls, n);
    Labels(ls, n);
    forall k | 0 <= k < 18 && !Flat(k) ensures CodeAt(m, a + Shift(k), CopyBytes(a, k)) {
      OneLine(ls, n, k, m);
    }
    AllLines(m, a);
  }

  // Lines without bytes.
  predicate Flat(k: nat) { k == 0 || k == 4 || k == 5 || k == 15 || k == 16 }

  lemma Labels(ls: seq<Line>, n: nat)
    requires ProgOk(ls) && ProgramOk(AllToks(ls)) && Contains(ls, n)
    requires forall j | 0 <= j < n :: ls[j] != Mark("loop") && ls[j] != Mark("done")
    ensures FindSymbol(Symbols(AllToks(ls)), "loop") == Some(PosOf(ls, n) + 30)
    ensures FindSymbol(Symbols(AllToks(ls)), "done") == Some(PosOf(ls, n) + 78)
  {
    hide FindSymbol, Symbols, PosOf, RegsOk, Toks, LineOk;
    assert ls[n+5] == CopyLine(5) && ls[n+16] == CopyLine(16);
    forall j | n <= j < n + 16 ensures ls[j] != Mark("done") && (j < n + 5 ==> ls[j] != Mark("loop")) {
      assert ls[j] == CopyLine(j - n);
    }
    DefinedAt(ls, n + 5, "loop");
    DefinedAt(ls, n + 16, "done");
    CopyPlaces(ls, n, 5);
    CopyPlaces(ls, n, 16);
  }

  lemma OneLine(ls: seq<Line>, n: nat, k: nat, m: seq<byte>)
    requires ProgOk(ls) && ProgramOk(AllToks(ls)) && Accepted(AllToks(ls)) && Contains(ls, n)
    requires k < 18 && !Flat(k) && 0 <= PosOf(ls, n) < TWO63
    requires |Assembled.Listing(AllToks(ls))| == |ls|
    requires forall j | 0 <= j < |ls| ::
      CodeAt(m, Assembled.Listing(AllToks(ls))[j].pos, Assembled.Listing(AllToks(ls))[j].bytes)
    requires FindSymbol(Symbols(AllToks(ls)), "loop") == Some(PosOf(ls, n) + 30)
    requires FindSymbol(Symbols(AllToks(ls)), "done") == Some(PosOf(ls, n) + 78)
    ensures CodeAt(m, PosOf(ls, n) + Shift(k), CopyBytes(PosOf(ls, n), k))
  {
    hide CodeAt, CopyLine, Accepted, Assembled.Listing, PosOf, RegsOk, Toks, LineOk, FindSymbol, Symbols, BytesOf,
         CopyBytes, Shift;
    assert ls[n+k] == CopyLine(k);
    NotPlaced(k);
    CopyPlaces(ls, n, k);
    PrintableLine(ls, n + k);
    CopyEmits(k, PosOf(ls, n), Symbols(AllToks(ls)));
  }

  lemma NotPlaced(k: nat)
    requires k < 18
    ensures !CopyLine(k).SetPos? && !CopyLine(k).AlignTo?
  {
  }

  lemma AllLines(m: seq<byte>, a: word)
    requires a < TWO63 - 100
    requires forall k | 0 <= k < 18 && !Flat(k) :: CodeAt(m, a + Shift(k), CopyBytes(a, k))
    ensures CopyBlock.Loaded(m, a)
  {
    hide CodeAt, WithBoth, WithRegs, WithImm, Plain;
    assert !Flat(1) && !Flat(2) && !Flat(3) && !Flat(6) && !Flat(7) && !Flat(8) && !Flat(9) && !Flat(10) && !Flat(11)
      && !Flat(12) && !Flat(13) && !Flat(14) && !Flat(17);
  }
}
