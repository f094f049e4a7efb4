// print_code and load_mem as they run: characters stored into a line buffer, bytes
// stored into the memory array.
module ObjectFile {
  import opened Common
  import opened Arith
  import opened Yas
  import opened Listing

  lemma {:induction false} HexAt(value: int, len: nat, k: nat)
    requires k < len
    ensures Pow16(k) > 0
    ensures Hex(value, len)[len-1-k] == HexDigit((value / Pow16(k)) % 16)
    decreases len
  {
    if k > 0 {
      HexAt(value / 16, len - 1, k - 1);
      DivOfMod(value, 16, Pow16(k - 1));
    }
  }

  lemma {:induction false} HexBytesAppend(a: seq<byte>, b: byte)
    ensures HexBytes(a + [b]) == HexBytes(a) + Hex(b, 2)
  {
    hide Hex;
    if a == [] {
      assert [b][1..] == [] && HexBytes([b]) == Hex(b, 2) + HexBytes([b][1..]);
    } else {
      assert (a + [b])[1..] == a[1..] + [b];
      HexBytesAppend(a[1..], b);
    }
  }

  lemma {:induction false} Pow16Positive(n: nat)
    ensures Pow16(n) > 0
  {
    if n > 0 { Pow16Positive(n - 1); }
  }

  // hexstuff
  method HexStuff(dest: array<char>, at: nat, value: int, len: nat)
    requires at + len <= dest.Length
    modifies dest
    ensures dest[..] == old(dest[..at]) + Hex(value, len) + old(dest[at+len..])
  {
    var i := 0;
    while i < len
      invariant i <= len
      invariant forall k | 0 <= k < dest.Length && !(at + len - i <= k < at + len) :: dest[k] == old(dest[k])
      invariant forall k | len - i <= k < len :: dest[at+k] == Hex(value, len)[k]
    {
      Pow16Positive(i);
      HexAt(value, len, i);
      dest[at+len-i-1] := HexDigit((value / Pow16(i)) % 16);
      i := i + 1;
    }
    assert forall k | 0 <= k < len :: dest[at+k] == Hex(value, len)[k];
    assert dest[..at] == old(dest[..at]) && dest[at..at+len] == Hex(value, len) &&
      dest[at+len..] == old(dest[at+len..]);
    assert dest[..] == dest[..at] + dest[at..at+len] + dest[at+len..];
  }

  // The blank form of a line: "0x", the address as zeros, a colon, blanks, a bar.
  function Template(w: nat): (s: string)
    requires 3 <= w <= 4
    ensures |s| == 27 + w
  {
    (if w == 4 then "0x0000:" else "0x000:") + Spaces(22) + "| "
  }

  // The loop of print_code over the bytes of the line.
  method PutBytes(outstring: array<char>, code: seq<byte>)
    requires 7 + 2 * |code| <= outstring.Length
    modifies outstring
    ensures outstring[..] == old(outstring[..7]) + HexBytes(code) + old(outstring[7+2*|code|..])
  {
    hide Hex, HexBytes;
    ghost var head := outstring[..];
    HexBytesEmpty();
    var i := 0;
    while i < |code|
      invariant i <= |code| && |HexBytes(code[..i])| == 2 * i
      invariant outstring[..] == head[..7] + HexBytes(code[..i]) + head[7+2*i..]
    {
      ghost var before := outstring[..];
      HexStuff(outstring, 7 + 2 * i, code[i], 2);
      HexBytesAppend(code[..i], code[i]);
      assert code[..i+1] == code[..i] + [code[i]];
      NextByte(before, head, HexBytes(code[..i]), Hex(code[i], 2), outstring[..], i);
      i := i + 1;
    }
    assert code[..i] == code;
  }

  lemma HexBytesEmpty()
    ensures HexBytes([]) == ""
  {
  }

  // print_code
  method PrintCode(pos: int, code: seq<byte>, blank: bool, text: string) returns (line: string, failed: bool)
    requires |code| <= 10 && (blank ==> code == [])
    ensures failed <==> !blank && pos > 0xFFFF
    ensures !failed ==> line == PrintLine(Listed(pos, code, blank), text)
  {
    hide PrintLine, Hex, HexBytes, Template;
    line, failed := "", false;
    var w := Width(pos);
    if blank {
      BlankLine(pos, text);
      line := Spaces(25 + w) + "| " + text + "\n";
      return;
    }
    if pos > 0xFFFF {
      failed := true;
      return;
    }
    var outstring := new char[27 + w](i requires 0 <= i < 27 + w => Template(w)[i]);
    ghost var base := Template(w);
    assert outstring[..] == base;
    HexStuff(outstring, 2, pos, w);
    ghost var head := base[..2] + Hex(pos, w) + base[2+w..];
    assert outstring[..] == head;
    PutBytes(outstring, code);
    WholeLine(pos, code, text, head, outstring[..]);
    line := outstring[..] + text + "\n";
  }

  lemma BlankLine(pos: int, text: string)
    ensures PrintLine(Listed(pos, [], true), text) == Spaces(25 + Width(pos)) + "| " + text + "\n"
  {
  }

  lemma NextByte(before: string, head: string, done: string, next: string, after: string, i: nat)
    requires |head| >= 9 + 2 * i && |done| == 2 * i && |next| == 2
    requires before == head[..7] + done + head[7+2*i..]
    requires after == before[..7+2*i] + next + before[9+2*i..]
    ensures after == head[..7] + (done + next) + head[9+2*i..]
  {
    assert before[..7+2*i] == head[..7] + done;
    assert before[9+2*i..] == head[9+2*i..];
  }

  lemma TemplateParts(w: nat, h: string, n: nat)
    requires 3 <= w <= 4 && |h| == w && n <= 20
    ensures var head := Template(w)[..2] + h + Template(w)[2+w..];
      head[..7] == "0x" + h + ":" + Spaces(4 - w) && head[7+n..] == Spaces(18 + w - n) + "| "
  {
    assert Template(w)[..2] == "0x";
    assert Template(w)[2+w..] == ":" + Spaces(22) + "| ";
    var head := "0x" + h + ":" + Spaces(22) + "| ";
    assert Template(w)[..2] + h + Template(w)[2+w..] == head;
  }

  lemma WholeLine(pos: int, code: seq<byte>, text: string, head: string, full: string)
    requires |code| <= 10 && pos <= 0xFFFF
    requires var w := Width(pos); head == Template(w)[..2] + Hex(pos, w) + Template(w)[2+w..]
    requires full == head[..7] + HexBytes(code) + head[7+2*|code|..]
    ensures full + text + "\n" == PrintLine(Listed(pos, code, false), text)
  {
    hide Hex, HexBytes, Template, Spaces;
    var w := Width(pos);
    TemplateParts(w, Hex(pos, w), 2 * |code|);
    var sp := Spaces(18 + w - 2 * |code|);
    Regrouped("0x" + Hex(pos, w) + ":" + Spaces(4 - w) + HexBytes(code), sp, "| ");
  }

  // load_mem: the bytes stored, and their number, or 0 after an error.
  method LoadMem(m: array<byte>, bufs: seq<string>) returns (count: nat)
    modifies m
    ensures var r := Load(bufs, Loaded(old(m[..]), 0, true));
      m[..] == r.m && count == (if r.ok then r.count else 0)
  {
    hide SkipSpace, Address, LoadLine;
    count := 0;
    var n := 0;
    while n < |bufs|
      invariant n <= |bufs|
      invariant Load(bufs[n..], Loaded(m[..], count, true)) == Load(bufs, Loaded(old(m[..]), 0, true))
    {
      var ok;
      ghost var before := Loaded(m[..], count, true);
      count, ok := LoadOne(m, bufs[n], count);
      assert bufs[n..][0] == bufs[n] && bufs[n..][1..] == bufs[n+1..];
      if !ok {
        return 0;
      }
      n := n + 1;
    }
  }

  method SkipWhite(buf: string, start: nat) returns (cpos: nat)
    ensures cpos == SkipSpace(buf, start)
  {
    cpos := start;
    while IsSpace(At(buf, cpos))
      invariant SkipSpace(buf, cpos) == SkipSpace(buf, start)
      decreases |buf| - cpos
    {
      cpos := cpos + 1;
    }
  }

  method LoadOne(m: array<byte>, buf: string, count: nat) returns (count': nat, ok: bool)
    modifies m
    ensures Loaded(m[..], count', ok) == LoadLine(buf, Loaded(old(m[..]), count, true))
  {
    hide SkipSpace, Pairs;
    count', ok := count, true;
    var cpos := SkipWhite(buf, 0);
    if At(buf, cpos) != '0' || (At(buf, cpos + 1) != 'x' && At(buf, cpos + 1) != 'X') {
      return;
    }
    cpos := cpos + 2;
    ghost var start := cpos;
    var bytepos := 0;
    while IsHex(At(buf, cpos))
      invariant 0 <= bytepos
      invariant Address(buf, cpos, bytepos) == Address(buf, start, 0)
      decreases |buf| - cpos
    {
      bytepos := bytepos * 16 + HexValue(At(buf, cpos));
      cpos := cpos + 1;
    }
    cpos := SkipWhite(buf, cpos);
    if At(buf, cpos) != ':' {
      ok := false;
      return;
    }
    cpos := SkipWhite(buf, cpos + 1);
    count', ok := LoadPairs(m, buf, cpos, bytepos, count);
  }

  // The loop of load_mem over the code of a line.
  method LoadPairs(m: array<byte>, buf: string, start: nat, pos: int, count: nat) returns (count': nat, ok: bool)
    requires 0 <= pos
    modifies m
    ensures Loaded(m[..], count', ok) == Pairs(buf, start, pos, Loaded(old(m[..]), count, true))
  {
    var cpos, bytepos := start, pos;
    count', ok := count, true;
    ghost var goal := Pairs(buf, cpos, bytepos, Loaded(m[..], count, true));
    while IsHex(At(buf, cpos)) && IsHex(At(buf, cpos + 1))
      invariant 0 <= bytepos
      invariant Pairs(buf, cpos, bytepos, Loaded(m[..], count', true)) == goal
      decreases |buf| - cpos
    {
      if bytepos >= m.Length {
        ok := false;
        return;
      }
      ghost var before: seq<byte> := m[..];
      var b: byte := HexValue(At(buf, cpos)) * 16 + HexValue(At(buf, cpos + 1));
      m[bytepos] := b;
      assert m[..] == before[bytepos := b];
      bytepos, count', cpos := bytepos + 1, count' + 1, cpos + 2;
    }
  }
}
