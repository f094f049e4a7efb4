// The blocked transpose of cachelab-handout/trans.c on flat storage: A[i][j] is
// A[i * M + j], B[c][r] is B[c * N + r], and the 64 x 64 case uses storage past the
// end of B's matrix as scratch.
module Transpose {
  import opened Arith

  function Idx(i: nat, j: nat, width: nat): nat { i * width + j }

  lemma IdxInside(i: nat, j: nat, height: nat, width: nat)
    requires i < height && j < width
    ensures Idx(i, j, width) < height * width
  {
    AtMost(i + 1, height, width);
  }

  lemma IdxUnique(i: nat, j: nat, i': nat, j': nat, width: nat)
    requires j < width && j' < width && Idx(i, j, width) == Idx(i', j', width)
    ensures i == i' && j == j'
  {
    ModUnique(Idx(i, j, width), width, i, j);
    ModUnique(Idx(i', j', width), width, i', j');
  }

  // A[r][c] and B[c][r]: what row r, column c of A holds, and its place in B.
  function Source(a: seq<int>, M: nat, N: nat, c: nat, r: nat): int
    requires |a| >= M * N && c < M && r < N
  {
    IdxInside(r, c, N, M);
    a[Idx(r, c, M)]
  }

  function Cell(b: seq<int>, M: nat, N: nat, c: nat, r: nat): int
    requires |b| >= M * N && c < M && r < N
  {
    IdxInside(c, r, M, N);
    b[Idx(c, r, N)]
  }

  // What is_transpose checks.
  ghost predicate IsTranspose(M: nat, N: nat, a: seq<int>, b: seq<int>)
    requires |a| >= M * N && |b| >= M * N
  {
    forall c, r | 0 <= c < M && 0 <= r < N :: Cell(b, M, N, c, r) == Source(a, M, N, c, r)
  }

  // Columns r0..r1 and rows c0..c1 of B.
  datatype Rect = Rect(r0: nat, r1: nat, c0: nat, c1: nat)

  predicate In(q: Rect, c: nat, r: nat) { q.r0 <= r < q.r1 && q.c0 <= c < q.c1 }

  // The scratch words of the 64 x 64 case.
  predicate Scratch(M: nat, N: nat, k: int) { M == 64 && N == 64 && 4104 <= k < 4360 }

  // From b to b', the cells in q got their transposed values, all other cells are as
  // before, and so is everything past the matrix that is not scratch.
  ghost predicate Wrote(M: nat, N: nat, a: seq<int>, b: seq<int>, b': seq<int>, q: Rect)
    requires |a| >= M * N && |b| >= M * N
  {
    && |b'| == |b|
    && (forall c, r | 0 <= c < M && 0 <= r < N ::
          Cell(b', M, N, c, r) == if In(q, c, r) then Source(a, M, N, c, r) else Cell(b, M, N, c, r))
    && (forall k | M * N <= k < |b| && !Scratch(M, N, k) :: b'[k] == b[k])
  }

  lemma WroteJoin(M: nat, N: nat, a: seq<int>, b: seq<int>, b1: seq<int>, b2: seq<int>, q1: Rect, q2: Rect, q: Rect)
    requires |a| >= M * N && |b| >= M * N && |b1| == |b|
    requires Wrote(M, N, a, b, b1, q1) && Wrote(M, N, a, b1, b2, q2)
    requires forall c, r | 0 <= c < M && 0 <= r < N :: In(q, c, r) <==> In(q1, c, r) || In(q2, c, r)
    ensures Wrote(M, N, a, b, b2, q)
  {
    hide Idx, Scratch, Cell, Source;
  }

  lemma WroteNothing(M: nat, N: nat, a: seq<int>, b: seq<int>, q: Rect)
    requires |a| >= M * N && |b| >= M * N && (q.r0 >= q.r1 || q.c0 >= q.c1)
    ensures Wrote(M, N, a, b, b, q)
  {
  }

  lemma WroteAll(M: nat, N: nat, a: seq<int>, b: seq<int>, b': seq<int>)
    requires |a| >= M * N && |b| >= M * N && Wrote(M, N, a, b, b', Rect(0, N, 0, M))
    ensures IsTranspose(M, N, a, b')
  {
    hide Cell, Source;
  }

  // One store: the cells in q are those of one row c0..c1 of B's column, one each.
  lemma Stored(M: nat, N: nat, a: seq<int>, b: seq<int>, b': seq<int>, c: nat, r: nat)
    requires |a| >= M * N && |b| >= M * N && c < M && r < N
    requires Idx(c, r, N) < |b| && b' == b[Idx(c, r, N) := Source(a, M, N, c, r)]
    ensures Wrote(M, N, a, b, b', Rect(r, r + 1, c, c + 1))
  {
    hide Source, Scratch;
    IdxInside(c, r, M, N);
    var q := Rect(r, r + 1, c, c + 1);
    forall c', r' | 0 <= c' < M && 0 <= r' < N
      ensures Cell(b', M, N, c', r') == if In(q, c', r') then Source(a, M, N, c', r') else Cell(b, M, N, c', r')
    {
      OtherCell(M, N, b, b', c, r, c', r', Source(a, M, N, c, r));
    }
  }

  lemma OtherCell(M: nat, N: nat, b: seq<int>, b': seq<int>, c: nat, r: nat, c': nat, r': nat, v: int)
    requires |b| >= M * N && c < M && r < N && c' < M && r' < N
    requires Idx(c, r, N) < |b| && b' == b[Idx(c, r, N) := v]
    ensures Cell(b', M, N, c', r') == if c' == c && r' == r then v else Cell(b, M, N, c', r')
  {
    hide Idx;
    IdxInside(c', r', M, N);
    if Idx(c', r', N) == Idx(c, r, N) { IdxUnique(c, r, c', r', N); }
  }

  // The store B[c][r] = value.
  method Store(M: nat, N: nat, B: array<int>, c: nat, r: nat, value: int, ghost a: seq<int>)
    requires |a| >= M * N && B.Length >= M * N && c < M && r < N && value == Source(a, M, N, c, r)
    modifies B
    ensures Wrote(M, N, a, old(B[..]), B[..], Rect(r, r + 1, c, c + 1))
    ensures forall k | M * N <= k < B.Length :: B[k] == old(B[k])
  {
    hide Wrote, Source;
    IdxInside(c, r, M, N);
    B[Idx(c, r, N)] := value;
    assert B[..] == old(B[..])[Idx(c, r, N) := value];
    Stored(M, N, a, old(B[..]), B[..], c, r);
  }

  // The load A[r][c].
  method Load(M: nat, N: nat, A: array<int>, c: nat, r: nat) returns (value: int)
    requires A.Length >= M * N && c < M && r < N
    ensures value == Source(A[..], M, N, c, r)
  {
    IdxInside(r, c, N, M);
    value := A[Idx(r, c, M)];
  }

  // Rectangles one above the other, and side by side.
  lemma Below(M: nat, N: nat, a: seq<int>, b: seq<int>, b1: seq<int>, b2: seq<int>, r0: nat, r1: nat, c0: nat,
          c1: nat, c2: nat)
    requires |a| >= M * N && |b| >= M * N && |b1| == |b| && c0 <= c1 <= c2
    requires Wrote(M, N, a, b, b1, Rect(r0, r1, c0, c1)) && Wrote(M, N, a, b1, b2, Rect(r0, r1, c1, c2))
    ensures Wrote(M, N, a, b, b2, Rect(r0, r1, c0, c2))
  {
    hide Wrote;
    WroteJoin(M, N, a, b, b1, b2, Rect(r0, r1, c0, c1), Rect(r0, r1, c1, c2), Rect(r0, r1, c0, c2));
  }

  lemma Beside(M: nat, N: nat, a: seq<int>, b: seq<int>, b1: seq<int>, b2: seq<int>, r0: nat, r1: nat, r2: nat,
          c0: nat, c1: nat)
    requires |a| >= M * N && |b| >= M * N && |b1| == |b| && r0 <= r1 <= r2
    requires Wrote(M, N, a, b, b1, Rect(r0, r1, c0, c1)) && Wrote(M, N, a, b1, b2, Rect(r1, r2, c0, c1))
    ensures Wrote(M, N, a, b, b2, Rect(r0, r2, c0, c1))
  {
    hide Wrote;
    WroteJoin(M, N, a, b, b1, b2, Rect(r0, r1, c0, c1), Rect(r1, r2, c0, c1), Rect(r0, r2, c0, c1));
  }

  // Eight elements of a row of A into a column of B: the body of the loops over i.
  method MoveRow(M: nat, N: nat, A: array<int>, B: array<int>, r: nat, col: nat)
    requires A != B && A.Length >= M * N && B.Length >= M * N && r < N && col + 8 <= M
    modifies B
    ensures Wrote(M, N, A[..], old(B[..]), B[..], Rect(r, r + 1, col, col + 8))
  {
    hide Wrote, Source;
    var tmp1 := Load(M, N, A, col, r);
    var tmp2 := Load(M, N, A, col + 1, r);
    var tmp3 := Load(M, N, A, col + 2, r);
    var tmp4 := Load(M, N, A, col + 3, r);
    var tmp5 := Load(M, N, A, col + 4, r);
    var tmp6 := Load(M, N, A, col + 5, r);
    var tmp7 := Load(M, N, A, col + 6, r);
    var tmp8 := Load(M, N, A, col + 7, r);
    ghost var a := A[..];
    ghost var b := B[..];
    Store(M, N, B, col, r, tmp1, a);
    ghost var b1 := B[..];
    Store(M, N, B, col + 1, r, tmp2, a);
    Below(M, N, a, b, b1, B[..], r, r + 1, col, col + 1, col + 2);
    ghost var b2 := B[..];
    Store(M, N, B, col + 2, r, tmp3, a);
    Below(M, N, a, b, b2, B[..], r, r + 1, col, col + 2, col + 3);
    ghost var b3 := B[..];
    Store(M, N, B, col + 3, r, tmp4, a);
    Below(M, N, a, b, b3, B[..], r, r + 1, col, col + 3, col + 4);
    ghost var b4 := B[..];
    Store(M, N, B, col + 4, r, tmp5, a);
    Below(M, N, a, b, b4, B[..], r, r + 1, col, col + 4, col + 5);
    ghost var b5 := B[..];
    Store(M, N, B, col + 5, r, tmp6, a);
    Below(M, N, a, b, b5, B[..], r, r + 1, col, col + 5, col + 6);
    ghost var b6 := B[..];
    Store(M, N, B, col + 6, r, tmp7, a);
    Below(M, N, a, b, b6, B[..], r, r + 1, col, col + 6, col + 7);
    ghost var b7 := B[..];
    Store(M, N, B, col + 7, r, tmp8, a);
    Below(M, N, a, b, b7, B[..], r, r + 1, col, col + 7, col + 8);
  }

  // Eight elements of a column of A into a row of B: the body of the loop over j.
  method MoveColumn(M: nat, N: nat, A: array<int>, B: array<int>, row: nat, c: nat)
    requires A != B && A.Length >= M * N && B.Length >= M * N && row + 8 <= N && c < M
    modifies B
    ensures Wrote(M, N, A[..], old(B[..]), B[..], Rect(row, row + 8, c, c + 1))
  {
    hide Wrote, Source;
    var tmp1 := Load(M, N, A, c, row);
    var tmp2 := Load(M, N, A, c, row + 1);
    var tmp3 := Load(M, N, A, c, row + 2);
    var tmp4 := Load(M, N, A, c, row + 3);
    var tmp5 := Load(M, N, A, c, row + 4);
    var tmp6 := Load(M, N, A, c, row + 5);
    var tmp7 := Load(M, N, A, c, row + 6);
    var tmp8 := Load(M, N, A, c, row + 7);
    ghost var a := A[..];
    ghost var b := B[..];
    Store(M, N, B, c, row, tmp1, a);
    ghost var b1 := B[..];
    Store(M, N, B, c, row + 1, tmp2, a);
    Beside(M, N, a, b, b1, B[..], row, row + 1, row + 2, c, c + 1);
    ghost var b2 := B[..];
    Store(M, N, B, c, row + 2, tmp3, a);
    Beside(M, N, a, b, b2, B[..], row, row + 2, row + 3, c, c + 1);
    ghost var b3 := B[..];
    Store(M, N, B, c, row + 3, tmp4, a);
    Beside(M, N, a, b, b3, B[..], row, row + 3, row + 4, c, c + 1);
    ghost var b4 := B[..];
    Store(M, N, B, c, row + 4, tmp5, a);
    Beside(M, N, a, b, b4, B[..], row, row + 4, row + 5, c, c + 1);
    ghost var b5 := B[..];
    Store(M, N, B, c, row + 5, tmp6, a);
    Beside(M, N, a, b, b5, B[..], row, row + 5, row + 6, c, c + 1);
    ghost var b6 := B[..];
    Store(M, N, B, c, row + 6, tmp7, a);
    Beside(M, N, a, b, b6, B[..], row, row + 6, row + 7, c, c + 1);
    ghost var b7 := B[..];
    Store(M, N, B, c, row + 7, tmp8, a);
    Beside(M, N, a, b, b7, B[..], row, row + 7, row + 8, c, c + 1);
  }

  // rows rows of A, eight wide: the loop of a full block and of the bottom blocks.
  method MoveRows(M: nat, N: nat, A: array<int>, B: array<int>, row: nat, col: nat, rows: nat)
    requires A != B && A.Length >= M * N && B.Length >= M * N && row + rows <= N && col + 8 <= M
    modifies B
    ensures Wrote(M, N, A[..], old(B[..]), B[..], Rect(row, row + rows, col, col + 8))
  {
    hide Wrote;
    WroteNothing(M, N, A[..], B[..], Rect(row, row, col, col + 8));
    for i := 0 to rows
      invariant Wrote(M, N, A[..], old(B[..]), B[..], Rect(row, row + i, col, col + 8))
    {
      ghost var b := B[..];
      MoveRow(M, N, A, B, row + i, col);
      Beside(M, N, A[..], old(B[..]), b, B[..], row, row + i, row + i + 1, col, col + 8);
    }
  }

  // The blocks at the right edge, eight high.
  method MoveColumns(M: nat, N: nat, A: array<int>, B: array<int>, row: nat, col: nat)
    requires A != B && A.Length >= M * N && B.Length >= M * N && row + 8 <= N && col <= M
    modifies B
    ensures Wrote(M, N, A[..], old(B[..]), B[..], Rect(row, row + 8, col, M))
  {
    hide Wrote;
    WroteNothing(M, N, A[..], B[..], Rect(row, row + 8, col, col));
    for j := 0 to M - col
      invariant Wrote(M, N, A[..], old(B[..]), B[..], Rect(row, row + 8, col, col + j))
    {
      ghost var b := B[..];
      MoveColumn(M, N, A, B, row, col + j);
      Below(M, N, A[..], old(B[..]), b, B[..], row, row + 8, col, col + j, col + j + 1);
    }
  }

  // The corner.
  method MoveCorner(M: nat, N: nat, A: array<int>, B: array<int>, row: nat, col: nat)
    requires A != B && A.Length >= M * N && B.Length >= M * N && row <= N && col <= M
    modifies B
    ensures Wrote(M, N, A[..], old(B[..]), B[..], Rect(row, N, col, M))
  {
    hide Wrote;
    WroteNothing(M, N, A[..], B[..], Rect(row, row, col, M));
    for i := 0 to N - row
      invariant Wrote(M, N, A[..], old(B[..]), B[..], Rect(row, row + i, col, M))
    {
      ghost var b := B[..];
      WroteNothing(M, N, A[..], b, Rect(row + i, row + i + 1, col, col));
      for j := 0 to M - col
        invariant Wrote(M, N, A[..], b, B[..], Rect(row + i, row + i + 1, col, col + j))
      {
        ghost var b1 := B[..];
        var value := Load(M, N, A, col + j, row + i);
        Store(M, N, B, col + j, row + i, value, A[..]);
        Below(M, N, A[..], b, b1, B[..], row + i, row + i + 1, col, col + j, col + j + 1);
      }
      Beside(M, N, A[..], old(B[..]), b, B[..], row, row + i, row + i + 1, col, M);
    }
  }

  // ------------------------------------------------------------------- 64 x 64

  // The scratch word B[64 + k][row + i + shift] of element i of the block.
  function ScratchAt(row: nat, shift: nat, k: nat, i: nat): nat { Idx(64 + k, row + i + shift, 64) }

  // In the first i elements of the block at (row, col), the scratch words hold the right
  // half of A's rows.
  ghost predicate Parked(a: seq<int>, b: seq<int>, row: nat, col: nat, shift: nat, i: nat)
    requires |a| >= 4096 && |b| >= 4360 && row + i <= 64 && col + 8 <= 64 && i <= 8 && row + shift <= 64
  {
    forall n, k | 0 <= n < i && 0 <= k < 4 ::
      b[ScratchAt(row, shift, k, n)] == Source(a, 64, 64, col + 4 + k, row + n)
  }

  // Scratch words are past the matrix, and within what the driver provides.
  lemma ScratchInside(row: nat, shift: nat, k: nat, i: nat)
    requires row + shift <= 64 && shift >= 8 && k < 4 && i < 8
    ensures 4104 <= ScratchAt(row, shift, k, i) < 4360
  {
  }

  lemma ScratchWrote(a: seq<int>, b: seq<int>, b': seq<int>, q: Rect)
    requires |a| >= 4096 && |b| >= 4360 && |b'| == |b| && (q.r0 >= q.r1 || q.c0 >= q.c1)
    requires forall j | 0 <= j < |b| && !(4104 <= j < 4360) :: b'[j] == b[j]
    ensures Wrote(64, 64, a, b, b', q)
  {
    forall c, r | 0 <= c < 64 && 0 <= r < 64 ensures Cell(b', 64, 64, c, r) == Cell(b, 64, 64, c, r) {
      IdxInside(c, r, 64, 64);
    }
  }

  // One pass of the first loop: the left half of a row of A to its place, the right half
  // to scratch.
  method MoveHalf(A: array<int>, B: array<int>, row: nat, col: nat, shift: nat, i: nat)
    requires A != B && A.Length >= 4096 && B.Length >= 4360
    requires i < 8 && row + 8 <= 64 && col + 8 <= 64 && 8 <= shift && row + shift <= 64
    requires Parked(A[..], B[..], row, col, shift, i)
    modifies B
    ensures Wrote(64, 64, A[..], old(B[..]), B[..], Rect(row + i, row + i + 1, col, col + 4))
    ensures Parked(A[..], B[..], row, col, shift, i + 1)
  {
    hide Wrote, Source;
    var r := row + i;
    var tmp1 := Load(64, 64, A, col, r);
    var tmp2 := Load(64, 64, A, col + 1, r);
    var tmp3 := Load(64, 64, A, col + 2, r);
    var tmp4 := Load(64, 64, A, col + 3, r);
    var tmp5 := Load(64, 64, A, col + 4, r);
    var tmp6 := Load(64, 64, A, col + 5, r);
    var tmp7 := Load(64, 64, A, col + 6, r);
    var tmp8 := Load(64, 64, A, col + 7, r);
    ghost var a := A[..];
    ghost var b := B[..];
    Store(64, 64, B, col, r, tmp1, a);
    ghost var b1 := B[..];
    Store(64, 64, B, col + 1, r, tmp2, a);
    Below(64, 64, a, b, b1, B[..], r, r + 1, col, col + 1, col + 2);
    ghost var b2 := B[..];
    Store(64, 64, B, col + 2, r, tmp3, a);
    Below(64, 64, a, b, b2, B[..], r, r + 1, col, col + 2, col + 3);
    ghost var b3 := B[..];
    Store(64, 64, B, col + 3, r, tmp4, a);
    Below(64, 64, a, b, b3, B[..], r, r + 1, col, col + 3, col + 4);
    ghost var b4 := B[..];
    ParkedKept(a, b, b4, row, col, shift, i);
    B[ScratchAt(row, shift, 0, i)] := tmp5;
    B[ScratchAt(row, shift, 1, i)] := tmp6;
    B[ScratchAt(row, shift, 2, i)] := tmp7;
    B[ScratchAt(row, shift, 3, i)] := tmp8;
    ParkedNext(a, b4, B[..], row, col, shift, i);
    ScratchWrote(a, b4, B[..], Rect(r, r + 1, col + 4, col + 4));
    Below(64, 64, a, b, b4, B[..], r, r + 1, col, col + 4, col + 4);
  }

  lemma ParkedKept(a: seq<int>, b: seq<int>, b': seq<int>, row: nat, col: nat, shift: nat, i: nat)
    requires |a| >= 4096 && |b| >= 4360 && |b'| == |b| && row + 8 <= 64 && col + 8 <= 64 && i <= 8 && 8 <= shift
    requires row + shift <= 64
    requires Parked(a, b, row, col, shift, i) && forall k | 4096 <= k < |b| :: b'[k] == b[k]
    ensures Parked(a, b', row, col, shift, i)
  {
    hide Source;
    forall n, k | 0 <= n < i && 0 <= k < 4
      ensures b'[ScratchAt(row, shift, k, n)] == Source(a, 64, 64, col + 4 + k, row + n)
    {
      ScratchInside(row, shift, k, n);
    }
  }

  lemma ParkedNext(a: seq<int>, b: seq<int>, b': seq<int>, row: nat, col: nat, shift: nat, i: nat)
    requires |a| >= 4096 && |b| >= 4360 && row + 8 <= 64 && col + 8 <= 64 && i < 8 && 8 <= shift && row + shift <= 64
    requires Parked(a, b, row, col, shift, i)
    requires b' == b[ScratchAt(row, shift, 0, i) := Source(a, 64, 64, col + 4, row + i)]
                    [ScratchAt(row, shift, 1, i) := Source(a, 64, 64, col + 5, row + i)]
                    [ScratchAt(row, shift, 2, i) := Source(a, 64, 64, col + 6, row + i)]
                    [ScratchAt(row, shift, 3, i) := Source(a, 64, 64, col + 7, row + i)]
    ensures Parked(a, b', row, col, shift, i + 1)
    ensures forall j | 0 <= j < |b| && !(4104 <= j < 4360) :: b'[j] == b[j]
  {
    hide Source;
  }

  // One pass of the second loop: the right half from scratch to its place.
  method MoveBack(A: array<int>, B: array<int>, row: nat, col: nat, shift: nat, i: nat)
    requires A != B && A.Length >= 4096 && B.Length >= 4360
    requires i < 8 && row + 8 <= 64 && col + 8 <= 64 && 8 <= shift && row + shift <= 64
    requires Parked(A[..], B[..], row, col, shift, 8)
    modifies B
    ensures Wrote(64, 64, A[..], old(B[..]), B[..], Rect(row + i, row + i + 1, col + 4, col + 8))
    ensures Parked(A[..], B[..], row, col, shift, 8)
  {
    hide Wrote, Source;
    var r := row + i;
    ghost var a := A[..];
    ghost var b := B[..];
    FromScratch(a, b, row, col, shift, i);
    Store(64, 64, B, col + 4, r, B[ScratchAt(row, shift, 0, i)], a);
    ghost var b1 := B[..];
    Store(64, 64, B, col + 5, r, B[ScratchAt(row, shift, 1, i)], a);
    Below(64, 64, a, b, b1, B[..], r, r + 1, col + 4, col + 5, col + 6);
    ghost var b2 := B[..];
    Store(64, 64, B, col + 6, r, B[ScratchAt(row, shift, 2, i)], a);
    Below(64, 64, a, b, b2, B[..], r, r + 1, col + 4, col + 6, col + 7);
    ghost var b3 := B[..];
    Store(64, 64, B, col + 7, r, B[ScratchAt(row, shift, 3, i)], a);
    Below(64, 64, a, b, b3, B[..], r, r + 1, col + 4, col + 7, col + 8);
    ParkedKept(a, b, B[..], row, col, shift, 8);
  }

  lemma FromScratch(a: seq<int>, b: seq<int>, row: nat, col: nat, shift: nat, i: nat)
    requires |a| >= 4096 && |b| >= 4360 && row + 8 <= 64 && col + 8 <= 64 && i < 8 && 8 <= shift && row + shift <= 64
    requires Parked(a, b, row, col, shift, 8)
    ensures forall k | 0 <= k < 4 ::
      4104 <= ScratchAt(row, shift, k, i) < 4360 &&
        b[ScratchAt(row, shift, k, i)] == Source(a, 64, 64, col + 4 + k, row + i)
  {
    forall k | 0 <= k < 4 ensures 4104 <= ScratchAt(row, shift, k, i) < 4360 {
      ScratchInside(row, shift, k, i);
    }
  }

  // An 8 x 8 block of the 64 x 64 case.
  method MoveBlock64(A: array<int>, B: array<int>, row: nat, col: nat)
    requires A != B && A.Length >= 4096 && B.Length >= 4360
    requires row % 8 == 0 && col % 8 == 0 && row < 64 && col < 64
    modifies B
    ensures Wrote(64, 64, A[..], old(B[..]), B[..], Rect(row, row + 8, col, col + 8))
  {
    hide Wrote, Source;
    // where in the rows 64..67 the right half waits
    var shift := if col - row != 8 then 8 else 16;
    ghost var a := A[..];
    ghost var b := B[..];
    WroteNothing(64, 64, a, b, Rect(row, row, col, col + 4));
    for i := 0 to 8
      invariant Wrote(64, 64, a, b, B[..], Rect(row, row + i, col, col + 4))
      invariant Parked(a, B[..], row, col, shift, i)
    {
      ghost var b1 := B[..];
      MoveHalf(A, B, row, col, shift, i);
      Beside(64, 64, a, b, b1, B[..], row, row + i, row + i + 1, col, col + 4);
    }
    ghost var half := B[..];
    WroteNothing(64, 64, a, half, Rect(row, row, col + 4, col + 8));
    for i := 0 to 8
      invariant Wrote(64, 64, a, half, B[..], Rect(row, row + i, col + 4, col + 8))
      invariant Parked(a, B[..], row, col, shift, 8)
    {
      ghost var b1 := B[..];
      MoveBack(A, B, row, col, shift, i);
      Beside(64, 64, a, half, b1, B[..], row, row + i, row + i + 1, col + 4, col + 8);
    }
    Below(64, 64, a, b, half, B[..], row, row + 8, col, col + 4, col + 8);
  }

  // ------------------------------------------------------------------ whole matrix

  function Least(x: nat, y: nat): nat { if x < y then x else y }

  // The body of the loop over col.
  method MoveBlock(M: nat, N: nat, A: array<int>, B: array<int>, row: nat, col: nat)
    requires A != B && A.Length >= M * N && B.Length >= M * N && (M == 64 && N == 64 ==> B.Length >= 4360)
    requires row % 8 == 0 && col % 8 == 0 && row < N && col < M
    modifies B
    ensures Wrote(M, N, A[..], old(B[..]), B[..], Rect(row, Least(row + 8, N), col, Least(col + 8, M)))
  {
    hide Wrote;
    if M == 64 && N == 64 {
      MoveBlock64(A, B, row, col);
    } else if row + 8 > N || col + 8 > M {
      if col + 8 <= M {
        MoveRows(M, N, A, B, row, col, N - row);
      } else if row + 8 <= N {
        MoveColumns(M, N, A, B, row, col);
      } else {
        MoveCorner(M, N, A, B, row, col);
      }
    } else {
      MoveRows(M, N, A, B, row, col, 8);
    }
  }

  // transpose_submit: B becomes the transpose of A, for all sizes, and past the matrix
  // nothing but the scratch words of the 64 x 64 case changes.
  method TransposeSubmit(M: nat, N: nat, A: array<int>, B: array<int>)
    requires A != B && A.Length >= M * N && B.Length >= M * N && (M == 64 && N == 64 ==> B.Length >= 4360)
    modifies B
    ensures IsTranspose(M, N, A[..], B[..])
    ensures forall k | M * N <= k < B.Length && !Scratch(M, N, k) :: B[k] == old(B[k])
  {
    hide Wrote, Source, IsTranspose;
    ghost var a := A[..];
    ghost var b := B[..];
    WroteNothing(M, N, a, b, Rect(0, 0, 0, M));
    var row := 0;
    while row < N
      invariant row % 8 == 0
      invariant Wrote(M, N, a, b, B[..], Rect(0, Least(row, N), 0, M))
    {
      ghost var top := Least(row + 8, N);
      ghost var b1 := B[..];
      WroteNothing(M, N, a, b1, Rect(row, top, 0, 0));
      var col := 0;
      while col < M
        invariant col % 8 == 0
        invariant Wrote(M, N, a, b1, B[..], Rect(row, top, 0, Least(col, M)))
      {
        ghost var b2 := B[..];
        MoveBlock(M, N, A, B, row, col);
        Below(M, N, a, b1, b2, B[..], row, top, 0, col, Least(col + 8, M));
        col := col + 8;
      }
      Beside(M, N, a, b, b1, B[..], 0, row, top, 0, M);
      row := row + 8;
    }
    WroteAll(M, N, a, b, B[..]);
    PastMatrix(M, N, a, b, B[..], Rect(0, N, 0, M));
  }

  lemma PastMatrix(M: nat, N: nat, a: seq<int>, b: seq<int>, b': seq<int>, q: Rect)
    requires |a| >= M * N && |b| >= M * N && Wrote(M, N, a, b, b', q)
    ensures |b'| == |b| && forall k | M * N <= k < |b| && !Scratch(M, N, k) :: b'[k] == b[k]
  {
  }

  // trans, the simple version
  method Trans(M: nat, N: nat, A: array<int>, B: array<int>)
    requires A != B && A.Length >= M * N && B.Length >= M * N
    modifies B
    ensures IsTranspose(M, N, A[..], B[..])
  {
    MoveCorner(M, N, A, B, 0, 0);
    WroteAll(M, N, A[..], old(B[..]), B[..]);
  }

  // is_transpose
  method CheckTranspose(M: nat, N: nat, A: array<int>, B: array<int>) returns (ok: bool)
    requires A.Length >= M * N && B.Length >= M * N
    ensures ok <==> IsTranspose(M, N, A[..], B[..])
  {
    hide Source, Cell;
    for i := 0 to N
      invariant forall c, r | 0 <= c < M && 0 <= r < i :: Cell(B[..], M, N, c, r) == Source(A[..], M, N, c, r)
    {
      for j := 0 to M
        invariant forall c, r | 0 <= c < M && 0 <= r < i :: Cell(B[..], M, N, c, r) == Source(A[..], M, N, c, r)
        invariant forall c | 0 <= c < j :: Cell(B[..], M, N, c, i) == Source(A[..], M, N, c, i)
      {
        if Source(A[..], M, N, j, i) != Cell(B[..], M, N, j, i) {
          return false;
        }
      }
    }
    ok := true;
  }
}
