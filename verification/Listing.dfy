// The object file: print_code and hexstuff of archlab-handout/sim/misc/yas.c write it,
// load_mem of isa.c reads it back.
module Listing {
  import opened Common
  import opened Arith
  import opened Yas

  // ------------------------------------------------------------------- printing

  function HexDigit(h: int): (c: char)
    requires 0 <= h < 16
    ensures IsHex(c) && HexValue(c) == h
  {
    if h < 10 then '0' + h as char else 'a' + (h - 10) as char
  }

  // hexstuff: the low len digits of value
  function Hex(value: int, len: nat): (s: string)
    ensures |s| == len && forall i | 0 <= i < len :: IsHex(s[i])
    decreases len
  {
    if len == 0 then "" else Hex(value / 16, len - 1) + [HexDigit(value % 16)]
  }

  function HexBytes(bytes: seq<byte>): (s: string)
    ensures |s| == 2 * |bytes| && forall i | 0 <= i < |s| :: IsHex(s[i])
  {
    if bytes == [] then "" else Hex(bytes[0], 2) + HexBytes(bytes[1..])
  }

  function Spaces(n: nat): (s: string)
    ensures |s| == n && forall i | 0 <= i < n :: s[i] == ' '
  {
    seq(n, _ => ' ')
  }

  // The width of the printed address.
  function Width(pos: int): nat { if pos > 0xFFF then 4 else 3 }

  predicate Printable(l: Listed)
  {
    |l.bytes| <= 10 && (l.blank ==> l.bytes == []) && (l.blank || l.pos <= LAST_ADDRESS)
  }

  // What print_code puts in front of the source text: the address and the bytes.  Code
  // starts in column 7 for both widths, so four-digit addresses have no space before it.
  function Head(l: Listed): (s: string)
    requires Printable(l)
    ensures |s| == 27 + Width(l.pos)
  {
    var w := Width(l.pos);
    if l.blank then Spaces(25 + w) + "| "
    else "0x" + Hex(l.pos, w) + ":" + Spaces(4 - w) + HexBytes(l.bytes) + Spaces(18 + w - 2 * |l.bytes|) + "| "
  }

  // print_code
  function PrintLine(l: Listed, text: string): string
    requires Printable(l)
  {
    Head(l) + text + "\n"
  }

  // -------------------------------------------------------------------- loading

  predicate IsSpace(c: char) { c == ' ' || '\t' <= c <= '\r' }

  predicate IsHex(c: char) { '0' <= c <= '9' || 'a' <= c <= 'f' || 'A' <= c <= 'F' }

  // hex2dig
  function HexValue(c: char): (v: int)
    requires IsHex(c)
    ensures 0 <= v < 16
  {
    if '0' <= c <= '9' then (c - '0') as int
    else if 'A' <= c <= 'F' then (c - 'A') as int + 10
    else (c - 'a') as int + 10
  }

  // A C string: the NUL that ends it reads as a character.
  function At(buf: string, i: nat): char { if i < |buf| then buf[i] else '\0' }

  function SkipSpace(buf: string, i: nat): (j: nat)
    ensures j >= i && !IsSpace(At(buf, j))
    decreases |buf| - i
  {
    if i < |buf| && IsSpace(buf[i]) then SkipSpace(buf, i + 1) else i
  }

  // The address digits: value and the position after them.
  function Address(buf: string, i: nat, v: int): (r: (int, nat))
    ensures r.1 >= i
    decreases |buf| - i
  {
    if i < |buf| && IsHex(buf[i]) then Address(buf, i + 1, v * 16 + HexValue(buf[i])) else (v, i)
  }

  // Loading goes on, has counted some bytes, or stopped with an error.
  datatype Loaded = Loaded(m: seq<byte>, count: nat, ok: bool)

  function Pairs(buf: string, i: nat, pos: int, l: Loaded): (r: Loaded)
    requires 0 <= pos
    ensures |r.m| == |l.m|
    decreases |buf| - i
  {
    if !(IsHex(At(buf, i)) && IsHex(At(buf, i + 1))) then l
    else if pos >= |l.m| then l.(ok := false)
    else
      Pairs(buf, i + 2, pos + 1,
        l.(m := l.m[pos := HexValue(At(buf, i)) * 16 + HexValue(At(buf, i + 1))], count := l.count + 1))
  }

  lemma {:induction false} AddressRange(buf: string, i: nat, v: int)
    requires 0 <= v
    ensures 0 <= Address(buf, i, v).0
    decreases |buf| - i
  {
    if i < |buf| && IsHex(buf[i]) { AddressRange(buf, i + 1, v * 16 + HexValue(buf[i])); }
  }

  function LoadLine(buf: string, l: Loaded): (r: Loaded)
    ensures |r.m| == |l.m|
  {
    var i := SkipSpace(buf, 0);
    if At(buf, i) != '0' || (At(buf, i + 1) != 'x' && At(buf, i + 1) != 'X') then l
    else
      AddressRange(buf, i + 2, 0);
      var (pos, j) := Address(buf, i + 2, 0);
      var k := SkipSpace(buf, j);
      if At(buf, k) != ':' then l.(ok := false)
      else Pairs(buf, SkipSpace(buf, k + 1), pos, l)
  }

  // load_mem on the lines that fgets delivers; it returns the count, or 0 after an error.
  function Load(bufs: seq<string>, l: Loaded): (r: Loaded)
    ensures |r.m| == |l.m|
  {
    if bufs == [] || !l.ok then l else Load(bufs[1..], LoadLine(bufs[0], l))
  }

  const LINELEN := 4096

  // fgets: up to and including the first newline, but at most n characters.
  function Fgets(file: string, n: nat): (i: nat)
    ensures i <= n && i <= |file| && (n > 0 && file != [] ==> i > 0)
  {
    if n == 0 || file == [] then 0
    else if file[0] == '\n' then 1
    else 1 + Fgets(file[1..], n - 1)
  }

  function Buffers(file: string): seq<string>
    decreases |file|
  {
    if file == [] then []
    else var i := Fgets(file, LINELEN - 1); [file[..i]] + Buffers(file[i..])
  }

  // ------------------------------------------------------------------ round trip

  // The address a line shows: of a negative one, the low three hexadecimal digits.
  function Shown(pos: int): int { if pos < 0 then pos % 4096 else pos }

  // The bytes of a line are inside a memory of n bytes.
  predicate FitsIn(l: Listed, n: nat) { l.bytes == [] || Shown(l.pos) + |l.bytes| <= n }

  // Writing each line's bytes at the address it shows, in line order.
  function Image(ls: seq<Listed>, m: seq<byte>): (r: seq<byte>)
    ensures |r| == |m|
  {
    if ls == [] then m else Image(ls[1..], Put(m, ls[0]))
  }

  function Put(m: seq<byte>, l: Listed): (r: seq<byte>)
    ensures |r| == |m|
  {
    var a := Shown(l.pos);
    if l.bytes == [] || !FitsIn(l, |m|) then m else m[..a] + l.bytes + m[a+|l.bytes|..]
  }

  function Total(ls: seq<Listed>): nat
  {
    if ls == [] then 0 else |ls[0].bytes| + Total(ls[1..])
  }

  const STRMAX := 4096

  // Source text that yas takes: with its newline it is shorter than STRMAX.
  predicate TextOk(text: string)
  {
    |text| + 1 < STRMAX && forall i | 0 <= i < |text| :: text[i] != '\n' && text[i] != '\0'
  }

  // What load_mem sees of a printed line as a line of its own: all that fgets leaves
  // behind when it has filled its buffer.
  function Tail(l: Listed, text: string): string
  {
    var room := LINELEN - 1 - 27 - Width(l.pos);
    if |text| + 1 <= room then "" else (text + "\n")[room..]
  }

  // load_mem takes nothing from such a line: it does not start with 0x, or there is a
  // colon after the address and no pair of hex digits after the colon.
  predicate Inert(t: string)
  {
    var i := SkipSpace(t, 0);
    At(t, i) != '0' || (At(t, i + 1) != 'x' && At(t, i + 1) != 'X') ||
    var k := SkipSpace(t, Address(t, i + 2, 0).1);
    var c := SkipSpace(t, k + 1);
    At(t, k) == ':' && !(IsHex(At(t, c)) && IsHex(At(t, c + 1)))
  }

  function Print(ls: seq<Listed>, texts: seq<string>): string
    requires |texts| == |ls| && forall k | 0 <= k < |ls| :: Printable(ls[k])
  {
    if ls == [] then "" else PrintLine(ls[0], texts[0]) + Print(ls[1..], texts[1..])
  }

  // ---- numbers

  function Pow16(n: nat): int { if n == 0 then 1 else 16 * Pow16(n - 1) }

  // The value of a run of hex digits after v.
  function Fold(s: string, v: int): int
    requires forall i | 0 <= i < |s| :: IsHex(s[i])
  {
    if s == "" then v else Fold(s[1..], v * 16 + HexValue(s[0]))
  }

  lemma {:induction false} FoldAppend(s: string, c: char, v: int)
    requires IsHex(c) && forall i | 0 <= i < |s| :: IsHex(s[i])
    ensures Fold(s + [c], v) == Fold(s, v) * 16 + HexValue(c)
  {
    if s == "" {
      assert (s + [c])[1..] == "";
    } else {
      assert (s + [c])[1..] == s[1..] + [c];
      FoldAppend(s[1..], c, v * 16 + HexValue(s[0]));
    }
  }

  // len digits keep the value modulo 16^len.
  lemma {:induction false} FoldHex(x: int, len: nat)
    ensures Pow16(len) > 0 && Fold(Hex(x, len), 0) == x % Pow16(len)
    decreases len
  {
    if len > 0 {
      FoldHex(x / 16, len - 1);
      FoldAppend(Hex(x / 16, len - 1), HexDigit(x % 16), 0);
      var p := Pow16(len - 1);
      var y := x / 16;
      Regroup(16, p, y / p, y % p, x % 16);
      Quotient(x, 16);
      Quotient(y, p);
      ModUnique(x, 16 * p, y / p, (y % p) * 16 + x % 16);
    }
  }

  // ---- pieces of a line

  // s stands in buf from i on.
  predicate Stands(buf: string, i: nat, s: string)
  {
    forall j | 0 <= j < |s| :: At(buf, i + j) == s[j]
  }

  lemma {:induction false} AddressOver(buf: string, i: nat, s: string, v: int)
    requires Stands(buf, i, s) && (forall j | 0 <= j < |s| :: IsHex(s[j])) && !IsHex(At(buf, i + |s|))
    ensures Address(buf, i, v) == (Fold(s, v), i + |s|)
    decreases |s|
  {
    assert s != "" ==> At(buf, i + 0) == s[0];
    if s != "" {
      forall j | 0 <= j < |s[1..]| ensures At(buf, i + 1 + j) == s[1..][j] {
        assert At(buf, i + (j + 1)) == s[j+1];
      }
      AddressOver(buf, i + 1, s[1..], v * 16 + HexValue(s[0]));
    }
  }

  lemma {:induction false} SkipOver(buf: string, i: nat, j: nat)
    requires i <= j && (forall k | i <= k < j :: IsSpace(At(buf, k))) && !IsSpace(At(buf, j))
    ensures SkipSpace(buf, i) == j
    decreases j - i
  {
    if i < j {
      assert IsSpace(At(buf, i));
      SkipOver(buf, i + 1, j);
    }
  }

  lemma HexOfByte(b: byte)
    ensures Hex(b, 2) == [HexDigit(b / 16), HexDigit(b % 16)]
  {
    hide HexDigit;
    var h := b / 16;
    assert h % 16 == h;
    assert Hex(h, 1) == Hex(h / 16, 0) + [HexDigit(h % 16)];
    assert Hex(b, 2) == Hex(h, 1) + [HexDigit(b % 16)];
  }

  lemma SpliceNext(m: seq<byte>, pos: int, bytes: seq<byte>)
    requires bytes != [] && 0 <= pos && pos + |bytes| <= |m|
    ensures var m1 := m[pos := bytes[0]];
      m1[..pos+1] + bytes[1..] + m1[pos+|bytes|..] == m[..pos] + bytes + m[pos+|bytes|..]
  {
  }

  // The first byte of the code, and where the others stand.
  lemma FirstByte(buf: string, i: nat, bytes: seq<byte>)
    requires bytes != [] && Stands(buf, i, HexBytes(bytes))
    ensures IsHex(At(buf, i)) && IsHex(At(buf, i + 1))
    ensures HexValue(At(buf, i)) * 16 + HexValue(At(buf, i + 1)) == bytes[0]
    ensures Stands(buf, i + 2, HexBytes(bytes[1..]))
  {
    hide Hex, At, IsHex, HexValue;
    var b := bytes[0];
    HexOfByte(b);
    var h := HexBytes(bytes);
    var r := HexBytes(bytes[1..]);
    assert h == [HexDigit(b / 16), HexDigit(b % 16)] + r;
    assert At(buf, i + 0) == h[0] && At(buf, i + 1) == h[1];
    forall j | 0 <= j < |r| ensures At(buf, i + 2 + j) == r[j] {
      assert At(buf, i + (j + 2)) == h[j+2];
    }
  }

  // The code of a line read back byte by byte.
  lemma {:induction false} PairsBack(buf: string, i: nat, bytes: seq<byte>, pos: int, l: Loaded)
    requires Stands(buf, i, HexBytes(bytes)) && !IsHex(At(buf, i + 2 * |bytes|))
    requires 0 <= pos && pos + |bytes| <= |l.m|
    ensures Pairs(buf, i, pos, l) == l.(m := l.m[..pos] + bytes + l.m[pos+|bytes|..], count := l.count + |bytes|)
    decreases |bytes|
  {
    hide Stands, HexBytes, At, IsHex, HexValue;
    if bytes == [] {
      assert l.m[..pos] + bytes + l.m[pos+|bytes|..] == l.m;
    } else {
      FirstByte(buf, i, bytes);
      PairsBack(buf, i + 2, bytes[1..], pos + 1, l.(m := l.m[pos := bytes[0]], count := l.count + 1));
      SpliceNext(l.m, pos, bytes);
    }
  }

  // The code of a line that reaches past the end of memory stops the loading.
  lemma {:induction false} PairsStop(buf: string, i: nat, bytes: seq<byte>, pos: int, l: Loaded)
    requires Stands(buf, i, HexBytes(bytes)) && bytes != [] && 0 <= pos && pos + |bytes| > |l.m|
    ensures !Pairs(buf, i, pos, l).ok
    decreases |bytes|
  {
    hide Stands, HexBytes, At, IsHex, HexValue;
    FirstByte(buf, i, bytes);
    if pos < |l.m| {
      PairsStop(buf, i + 2, bytes[1..], pos + 1, l.(m := l.m[pos := bytes[0]], count := l.count + 1));
    }
  }

  // The fixed columns of a line with an address.
  lemma Columns(l: Listed, buf: string)
    requires Printable(l) && !l.blank && Head(l) <= buf
    ensures var w := Width(l.pos);
      && At(buf, 0) == '0' && At(buf, 1) == 'x' && Stands(buf, 2, Hex(l.pos, w)) && At(buf, 2 + w) == ':'
      && (forall k | 3 + w <= k < 7 :: At(buf, k) == ' ')
      && Stands(buf, 7, HexBytes(l.bytes))
      && (forall k | 7 + 2 * |l.bytes| <= k < 25 + w :: At(buf, k) == ' ') && At(buf, 25 + w) == '|'
  {
    hide Hex, HexBytes;
    var w := Width(l.pos);
    var h, b := Hex(l.pos, w), HexBytes(l.bytes);
    var pre := "0x" + h + ":" + Spaces(4 - w);
    var post := Spaces(18 + w - 2 * |l.bytes|) + "| ";
    var head := Head(l);
    assert head == pre + b + post;
    forall j | 0 <= j < |h| ensures At(buf, 2 + j) == h[j] {
      assert head[2+j] == pre[2+j] == h[j];
    }
    forall j | 0 <= j < |b| ensures At(buf, 7 + j) == b[j] {
      assert head[7+j] == (pre + b)[7+j] == b[j];
    }
    forall k | 3 + w <= k < 7 ensures At(buf, k) == ' ' {
      assert head[k] == pre[k];
    }
    forall k | 7 + 2 * |l.bytes| <= k <= 25 + w ensures At(buf, k) == post[k - 7 - 2 * |l.bytes|] {
      assert head[k] == (pre + b + post)[k];
    }
  }

  // One line read back, whatever follows the bar: its bytes arrive at the address it
  // shows, three digits of it below 0x1000, or loading stops.
  lemma LineBack(l: Listed, buf: string, s: Loaded)
    requires Printable(l) && s.ok && Head(l) <= buf
    ensures FitsIn(l, |s.m|) ==> LoadLine(buf, s) == Loaded(Put(s.m, l), s.count + |l.bytes|, true)
    ensures !FitsIn(l, |s.m|) ==> !LoadLine(buf, s).ok
  {
    hide Address, SkipSpace, Pairs, Hex, HexBytes, Head;
    var w := Width(l.pos);
    if l.blank {
      BlankColumns(l, buf);
      SkipOver(buf, 0, 25 + w);
    } else {
      Columns(l, buf);
      SkipOver(buf, 0, 0);
      AddressOver(buf, 2, Hex(l.pos, w), 0);
      AddressShown(l.pos);
      SkipOver(buf, 2 + w, 2 + w);
      if l.bytes == [] {
        SkipOver(buf, 3 + w, 25 + w);
        NoPairs(buf, 25 + w, Address(buf, 2, 0).0, s);
      } else {
        FirstHex(l.bytes);
        assert At(buf, 7 + 0) == HexBytes(l.bytes)[0];
        SkipOver(buf, 3 + w, 7);
        if FitsIn(l, |s.m|) { PairsBack(buf, 7, l.bytes, Shown(l.pos), s); }
        else { PairsStop(buf, 7, l.bytes, Shown(l.pos), s); }
      }
    }
  }

  // The sixteen digits in either case.
  lemma HexChars(c: char, k: nat)
    requires k < 16
    ensures IsHex(c) <==> c in "0123456789abcdef" || c in "0123456789ABCDEF"
    ensures IsHex("0123456789abcdef"[k]) && HexValue("0123456789abcdef"[k]) == k
    ensures IsHex("0123456789ABCDEF"[k]) && HexValue("0123456789ABCDEF"[k]) == k
  {
    if IsHex(c) {
      var v := HexValue(c);
      assert c == "0123456789abcdef"[v] || c == "0123456789ABCDEF"[v];
    }
  }

  // Two hex digits at i + 2 * j for every byte.
  ghost predicate Spells(buf: string, i: nat, bytes: seq<byte>)
  {
    forall j | 0 <= j < |bytes| :: SpelledAt(buf, i + 2 * j, bytes[j])
  }

  ghost predicate SpelledAt(buf: string, i: nat, b: byte)
  {
    IsHex(At(buf, i)) && IsHex(At(buf, i + 1)) && b == 16 * HexValue(At(buf, i)) + HexValue(At(buf, i + 1))
  }

  lemma {:induction false} PairsSpell(buf: string, i: nat, bytes: seq<byte>, pos: int, l: Loaded)
    requires Spells(buf, i, bytes) && 0 <= pos
    requires !(IsHex(At(buf, i + 2 * |bytes|)) && IsHex(At(buf, i + 2 * |bytes| + 1)))
    ensures pos + |bytes| <= |l.m| ==>
      Pairs(buf, i, pos, l) == l.(m := l.m[..pos] + bytes + l.m[pos+|bytes|..], count := l.count + |bytes|)
    ensures bytes != [] && pos + |bytes| > |l.m| ==> !Pairs(buf, i, pos, l).ok
    decreases |bytes|
  {
    hide At, IsHex, HexValue;
    if bytes == [] {
      assert pos <= |l.m| ==> l.m[..pos] + bytes + l.m[pos+|bytes|..] == l.m;
    } else {
      assert SpelledAt(buf, i + 2 * 0, bytes[0]);
      forall j | 0 <= j < |bytes| - 1 ensures SpelledAt(buf, i + 2 + 2 * j, bytes[1..][j]) {
        assert SpelledAt(buf, i + 2 * (j + 1), bytes[j+1]);
      }
      if pos < |l.m| {
        PairsSpell(buf, i + 2, bytes[1..], pos + 1, l.(m := l.m[pos := bytes[0]], count := l.count + 1));
        if pos + |bytes| <= |l.m| { SpliceNext(l.m, pos, bytes); }
      }
    }
  }

  // Any line of an object file, not only a printed one: white space, 0x or 0X, an address
  // in digits of either case, a colon between white space, and bytes up to the first that
  // is not spelled by two digits.
  lemma LineLoads(buf: string, start: nat, digits: string, colon: nat, code: nat, bytes: seq<byte>, s: Loaded)
    requires s.ok && start + 2 + |digits| <= colon < code
    requires (forall k | 0 <= k < start :: IsSpace(At(buf, k))) && At(buf, start) == '0'
    requires At(buf, start + 1) == 'x' || At(buf, start + 1) == 'X'
    requires Stands(buf, start + 2, digits) && forall k | 0 <= k < |digits| :: IsHex(digits[k])
    requires Fold(digits, 0) < 0x8000_0000_0000_0000
    requires forall k | start + 2 + |digits| <= k < colon :: IsSpace(At(buf, k))
    requires At(buf, colon) == ':' && forall k | colon < k < code :: IsSpace(At(buf, k))
    requires !IsSpace(At(buf, code)) && Spells(buf, code, bytes)
    requires !(IsHex(At(buf, code + 2 * |bytes|)) && IsHex(At(buf, code + 2 * |bytes| + 1)))
    ensures var a := Fold(digits, 0);
      && 0 <= a
      && (a + |bytes| <= |s.m| ==>
            LoadLine(buf, s) == Loaded(s.m[..a] + bytes + s.m[a+|bytes|..], s.count + |bytes|, true))
      && (bytes != [] && a + |bytes| > |s.m| ==> !LoadLine(buf, s).ok)
  {
    hide Address, SkipSpace, Pairs, Fold, Stands, Spells;
    var next := start + 2 + |digits|;
    assert !IsHex(At(buf, next)) by { assert next < colon ==> IsSpace(At(buf, next)); }
    SkipOver(buf, 0, start);
    AddressOver(buf, start + 2, digits, 0);
    AddressRange(buf, start + 2, 0);
    SkipOver(buf, next, colon);
    SkipOver(buf, colon + 1, code);
    PairsSpell(buf, code, bytes, Fold(digits, 0), s);
  }

  lemma AddressShown(pos: int)
    requires pos <= LAST_ADDRESS
    ensures Fold(Hex(pos, Width(pos)), 0) == Shown(pos) && 0 <= Shown(pos)
  {
    FoldHex(pos, Width(pos));
    assert Pow16(3) == 4096 && Pow16(4) == 65536 by { assert Pow16(2) == 256; }
  }

  lemma FirstHex(bytes: seq<byte>)
    requires bytes != []
    ensures |HexBytes(bytes)| > 0 && IsHex(HexBytes(bytes)[0])
  {
  }

  lemma NoPairs(buf: string, i: nat, pos: int, l: Loaded)
    requires !IsHex(At(buf, i)) && 0 <= pos
    ensures Pairs(buf, i, pos, l) == l
  {
  }

  lemma BlankColumns(l: Listed, buf: string)
    requires Printable(l) && l.blank && Head(l) <= buf
    ensures var w := Width(l.pos);
      (forall k | 0 <= k < 25 + w :: At(buf, k) == ' ') && At(buf, 25 + w) == '|'
  {
    var w := Width(l.pos);
    forall k | 0 <= k <= 25 + w ensures buf[k] == Head(l)[k] {}
  }

  // A negative address, as .pos can set it, comes back as its low twelve bits.
  lemma AddressPrinted(l: Listed, text: string)
    requires Printable(l) && !l.blank
    ensures Address(PrintLine(l, text), 2, 0).0 == l.pos <==> 0 <= l.pos
  {
    hide Address, Hex, HexBytes, Head;
    Columns(l, PrintLine(l, text));
    var w := Width(l.pos);
    AddressOver(PrintLine(l, text), 2, Hex(l.pos, w), 0);
    AddressShown(l.pos);
  }

  lemma {:induction false} PairsCount(buf: string, i: nat, pos: int, l: Loaded)
    requires 0 <= pos
    ensures Pairs(buf, i, pos, l).count >= l.count
    decreases |buf| - i
  {
    if IsHex(At(buf, i)) && IsHex(At(buf, i + 1)) && pos < |l.m| {
      PairsCount(buf, i + 2, pos + 1,
        l.(m := l.m[pos := HexValue(At(buf, i)) * 16 + HexValue(At(buf, i + 1))], count := l.count + 1));
    }
  }

  // load_mem passes over a line exactly if it is inert; from any other line it takes
  // bytes, or it stops.
  lemma InertLine(t: string, s: Loaded)
    requires s.ok
    ensures LoadLine(t, s) == s <==> Inert(t)
    ensures LoadLine(t, s).ok ==> LoadLine(t, s).count >= s.count + if Inert(t) then 0 else 1
  {
    hide SkipSpace, Address, IsHex;
    var i := SkipSpace(t, 0);
    if At(t, i) == '0' && (At(t, i + 1) == 'x' || At(t, i + 1) == 'X') {
      AddressRange(t, i + 2, 0);
      var pos := Address(t, i + 2, 0).0;
      var k := SkipSpace(t, Address(t, i + 2, 0).1);
      var c := SkipSpace(t, k + 1);
      if At(t, k) == ':' && IsHex(At(t, c)) && IsHex(At(t, c + 1)) && pos < |s.m| {
        PairsCount(t, c + 2, pos + 1,
          s.(m := s.m[pos := HexValue(At(t, c)) * 16 + HexValue(At(t, c + 1))], count := s.count + 1));
      }
    }
  }

  // ---- the file

  lemma {:induction false} FgetsLine(line: string, rest: string, n: nat)
    requires line != "" && |line| <= n && line[|line|-1] == '\n'
    requires forall i | 0 <= i < |line| - 1 :: line[i] != '\n'
    ensures Fgets(line + rest, n) == |line|
    decreases n
  {
    var file := line + rest;
    assert file[0] == line[0];
    if |line| > 1 {
      assert file[1..] == line[1..] + rest;
      FgetsLine(line[1..], rest, n - 1);
    }
  }

  lemma {:induction false} FgetsFull(file: string, n: nat)
    requires n <= |file| && forall i | 0 <= i < n :: file[i] != '\n'
    ensures Fgets(file, n) == n
    decreases n
  {
    if n > 0 { FgetsFull(file[1..], n - 1); }
  }

  lemma PrintedLine(l: Listed, text: string)
    requires Printable(l) && TextOk(text)
    ensures var buf := PrintLine(l, text);
      && buf != "" && |buf| <= LINELEN + 31 && buf[|buf|-1] == '\n'
      && (forall i | 0 <= i < |buf| - 1 :: buf[i] != '\n')
      && Tail(l, text) == if |buf| <= LINELEN - 1 then "" else buf[LINELEN-1..]
  {
    var buf, head := PrintLine(l, text), Head(l);
    NoNewline(l);
    hide Head;
    assert forall i | 0 <= i < |head| :: buf[i] == head[i];
    assert forall i | 0 <= i < |text| :: buf[|head| + i] == text[i];
    if |buf| > LINELEN - 1 {
      assert buf == head + (text + "\n");
    }
  }

  lemma NoNewline(l: Listed)
    requires Printable(l)
    ensures forall i | 0 <= i < |Head(l)| :: Head(l)[i] != '\n'
  {
    hide Hex, HexBytes;
    var w := Width(l.pos);
    var h, b := Hex(l.pos, w), HexBytes(l.bytes);
    assert forall i | 0 <= i < |h| :: h[i] != '\n';
    assert forall i | 0 <= i < |b| :: b[i] != '\n';
  }

  // The buffers fgets delivers for one printed line: two if it is longer than a buffer.
  function Chunks(line: string): seq<string>
  {
    if |line| <= LINELEN - 1 then [line] else [line[..LINELEN-1], line[LINELEN-1..]]
  }

  lemma LineBuffers(line: string, rest: string)
    requires line != "" && |line| <= LINELEN + 31 && line[|line|-1] == '\n'
    requires forall i | 0 <= i < |line| - 1 :: line[i] != '\n'
    ensures Buffers(line + rest) == Chunks(line) + Buffers(rest)
  {
    hide Buffers, Fgets;
    var n := LINELEN - 1;
    if |line| <= n {
      FgetsLine(line, rest, n);
      NextBuffer(line, rest);
    } else {
      var head, tail := line[..n], line[n..];
      assert line + rest == head + (tail + rest);
      FgetsFull(line + rest, n);
      NextBuffer(head, tail + rest);
      FgetsLine(tail, rest, n);
      NextBuffer(tail, rest);
      assert Buffers(line + rest) == [head] + ([tail] + Buffers(rest));
    }
  }

  lemma NextBuffer(buf: string, rest: string)
    requires buf != "" && Fgets(buf + rest, LINELEN - 1) == |buf|
    ensures Buffers(buf + rest) == [buf] + Buffers(rest)
  {
    assert (buf + rest)[..|buf|] == buf && (buf + rest)[|buf|..] == rest;
  }

  // What is loaded from one printed line.
  function LoadedLine(l: Listed, text: string, s: Loaded): Loaded
  {
    if FitsIn(l, |s.m|) then LoadLine(Tail(l, text), Loaded(Put(s.m, l), s.count + |l.bytes|, true))
    else s.(ok := false)
  }

  lemma LoadFirst(buf: string, rest: seq<string>, s: Loaded)
    requires s.ok
    ensures Load([buf] + rest, s) == Load(rest, LoadLine(buf, s))
  {
    hide LoadLine;
    assert ([buf] + rest)[0] == buf && ([buf] + rest)[1..] == rest;
  }

  lemma LoadStopped(bufs: seq<string>, s: Loaded)
    requires !s.ok
    ensures Load(bufs, s) == s
  {
  }

  // Loading one printed line and then the rest of the file.
  lemma LoadPrinted(l: Listed, text: string, rest: string, s: Loaded)
    requires Printable(l) && TextOk(text) && s.ok
    ensures var s2 := LoadedLine(l, text, s);
      var r := Load(Buffers(PrintLine(l, text) + rest), s);
      if s2.ok then r == Load(Buffers(rest), s2) else !r.ok
  {
    hide PrintLine, Printable, TextOk, LoadLine, Put, Head, Tail, Inert, FitsIn, Load, Buffers;
    var line, more := PrintLine(l, text), Buffers(rest);
    PrintedLine(l, text);
    LineBuffers(line, rest);
    HeadFirst(l, text);
    var first := Chunks(line)[0];
    var s1 := LoadLine(first, s);
    LineBack(l, first, s);
    NothingLeft(s1);
    if |line| <= LINELEN - 1 {
      LoadFirst(line, more, s);
    } else {
      var tail := line[LINELEN-1..];
      assert Chunks(line) + more == [first] + ([tail] + more);
      LoadFirst(first, [tail] + more, s);
      if s1.ok { LoadFirst(tail, more, s1); } else { LoadStopped([tail] + more, s1); }
    }
    if !LoadedLine(l, text, s).ok { LoadStopped(more, if s1.ok then LoadedLine(l, text, s) else s1); }
  }

  lemma NothingLeft(s: Loaded)
    ensures LoadLine("", s) == s && Inert("") && Load(Buffers(""), s) == s
  {
  }

  lemma HeadFirst(l: Listed, text: string)
    requires Printable(l)
    ensures Head(l) <= PrintLine(l, text) && Head(l) <= Chunks(PrintLine(l, text))[0]
  {
    hide Head;
    assert PrintLine(l, text) == Head(l) + (text + "\n");
  }

  // Nothing a listing holds is lost: if loading gets through, it counts at least the
  // bytes that were printed.
  lemma {:induction false} LoadsAll(ls: seq<Listed>, texts: seq<string>, s: Loaded)
    requires |texts| == |ls| && forall k | 0 <= k < |ls| :: Printable(ls[k]) && TextOk(texts[k])
    requires s.ok
    ensures var r := Load(Buffers(Print(ls, texts)), s); r.ok ==> r.count >= s.count + Total(ls)
    decreases |ls|
  {
    hide PrintLine, Printable, TextOk, LoadLine, Put, Inert, Tail, Load, Buffers, FitsIn;
    if ls == [] {
      NothingLeft(s);
    } else {
      var s2 := LoadedLine(ls[0], texts[0], s);
      LoadPrinted(ls[0], texts[0], Print(ls[1..], texts[1..]), s);
      InertLine(Tail(ls[0], texts[0]), Loaded(Put(s.m, ls[0]), s.count + |ls[0].bytes|, true));
      if s2.ok { LoadsAll(ls[1..], texts[1..], s2); }
    }
  }

  // load_mem undoes print_code: loading the listing writes every line's bytes at its
  // address, in line order, and counts them, exactly if all of them are inside memory and
  // what overlong lines leave behind is inert.
  lemma {:induction false} LoadUndoesPrint(ls: seq<Listed>, texts: seq<string>, m: seq<byte>, count: nat)
    requires |texts| == |ls| && forall k | 0 <= k < |ls| :: Printable(ls[k]) && TextOk(texts[k])
    ensures Load(Buffers(Print(ls, texts)), Loaded(m, count, true)) == Loaded(Image(ls, m), count + Total(ls), true)
      <==> forall k | 0 <= k < |ls| :: FitsIn(ls[k], |m|) && Inert(Tail(ls[k], texts[k]))
    decreases |ls|
  {
    hide PrintLine, Printable, TextOk, LoadLine, Put, Inert, Tail, Load, Buffers, FitsIn;
    if ls == [] {
      NothingLeft(Loaded(m, count, true));
    } else {
      var s1 := Loaded(Put(m, ls[0]), count + |ls[0].bytes|, true);
      var s2 := LoadedLine(ls[0], texts[0], Loaded(m, count, true));
      LoadPrinted(ls[0], texts[0], Print(ls[1..], texts[1..]), Loaded(m, count, true));
      InertLine(Tail(ls[0], texts[0]), s1);
      if FitsIn(ls[0], |m|) && s2 == s1 {
        LoadUndoesPrint(ls[1..], texts[1..], s1.m, s1.count);
        assert forall k | 1 <= k < |ls| :: ls[k] == ls[1..][k-1] && texts[k] == texts[1..][k-1];
        assert forall k | 0 <= k < |ls| - 1 :: ls[1..][k] == ls[k+1] && texts[1..][k] == texts[k+1];
      } else if s2.ok {
        LoadsAll(ls[1..], texts[1..], s2);
      }
    }
  }

  // Source text whose line of the listing fits fgets's buffer, at any address.
  predicate Short(text: string)
  {
    TextOk(text) && |text| + 32 < LINELEN
  }

  lemma ShortInert(l: Listed, text: string)
    requires Short(text)
    ensures Inert(Tail(l, text))
  {
    NothingLeft(Loaded([], 0, true));
  }

  lemma LongCommentFile(first: string, second: string, text: string, l: Listed)
    requires l == Listed(0, [], true) && text == Spaces(4065) + "0x0:ff"
    requires first == Spaces(28) + "| " + Spaces(4065) && second == "0x0:ff\n"
    ensures Buffers(Print([l], [text])) == [first, second]
  {
    hide Spaces;
    assert PrintLine(l, text) == first + second;
    assert Print([l][1..], [text][1..]) == "";
    var file := first + second;
    assert Print([l], [text]) == file + "" == file;
    FgetsFull(file, LINELEN - 1);
    assert file[..LINELEN-1] == first && file[LINELEN-1..] == second;
    FgetsLine(second, "", LINELEN - 1);
    assert second + "" == second && second[..|second|] == second && second[|second|..] == "";
    assert Buffers("") == [];
    assert Buffers(second) == [second] + Buffers("");
    assert Buffers(file) == [first] + Buffers(second);
  }

  // A comment that the assembler takes and whose end is not inert: load_mem reads it as
  // a line of its own and stores a byte.
  lemma LongCommentLoads(m: seq<byte>)
    requires m != []
    ensures var text := Spaces(4065) + "0x0:ff"; var l := Listed(0, [], true);
      Printable(l) && TextOk(text) && Image([l], m) == m
      && Load(Buffers(Print([l], [text])), Loaded(m, 0, true)) == Loaded(m[0 := 0xFF], 1, true)
  {
    hide Spaces, Print, Buffers, LoadLine;
    var text := Spaces(4065) + "0x0:ff";
    var l := Listed(0, [], true);
    var first := Spaces(28) + "| " + Spaces(4065);
    var second := "0x0:ff\n";
    LongCommentFile(first, second, text, l);
    var s := Loaded(m, 0, true);
    FirstSkipped(first, s);
    SecondLoads(m);
    assert [first, second][1..] == [second] && [second][1..] == [];
    assert Load([second], s) == Load([], LoadLine(second, s));
    assert Image([l][1..], m) == m;
  }

  lemma FirstSkipped(first: string, s: Loaded)
    requires first == Spaces(28) + "| " + Spaces(4065)
    ensures LoadLine(first, s) == s
  {
    SkipOver(first, 0, 28);
  }

  lemma SecondLoads(m: seq<byte>)
    requires m != []
    ensures LoadLine("0x0:ff\n", Loaded(m, 0, true)) == Loaded(m[0 := 0xFF], 1, true)
  {
    var b := "0x0:ff\n";
    SkipOver(b, 0, 0);
    AddressOver(b, 2, "0", 0);
    SkipOver(b, 3, 3);
    SkipOver(b, 4, 4);
    HexOfByte(0xFF);
    assert HexBytes([0xFF]) == Hex(0xFF, 2) + HexBytes([]);
    PairsBack(b, 4, [0xFF], 0, Loaded(m, 0, true));
  }
}
