/** The sparse parity-check matrix over GF(2), stored row-compressed.
    A field element is a `bool` (`false` is B0, `true` is B1) and field
    addition is exclusive or (`!=`). */
module ParityCheck {
  import opened Wrappers

  /** The position `(row, col)` of one non-zero entry. */
  datatype Position = Position(row: nat, col: nat)

  /** The columns of row `i` are `columnIndices[rowRanges[i]..rowRanges[i + 1]]`. */
  datatype ParityCheckMatrix = ParityCheckMatrix(rowRanges: seq<nat>, columnIndices: seq<nat>)

  /** A borrowed view of one row: the columns of its non-zero entries. */
  datatype Slice = Slice(positions: seq<nat>)

  // ---------------------------------------------------------------------------
  // What `new` computes, as a left fold of its loop body
  // ---------------------------------------------------------------------------

  /** The local state of `new` between two input positions. */
  datatype Scan = Scan(rowRanges: seq<nat>, activeRow: nat, rowLength: nat, columnIndices: seq<nat>)

  /** `*row_ranges.last().unwrap_or(&0)` */
  function LastOrZero(s: seq<nat>): nat {
    if s == [] then 0 else s[|s| - 1]
  }

  /** The inner `while active_row < row` loop: every skipped row pushes the
      last offset plus `rowLength`, the length of the row that was open. */
  function Pad(rowRanges: seq<nat>, activeRow: nat, row: nat, rowLength: nat): seq<nat>
    decreases row - activeRow
  {
    if activeRow < row then
      Pad(rowRanges + [LastOrZero(rowRanges) + rowLength], activeRow + 1, row, rowLength)
    else
      rowRanges
  }

  /** One iteration of the `for (row, col) in positions` loop. */
  function Step(s: Scan, p: Position): Scan {
    if p.row == s.activeRow then
      Scan(s.rowRanges, s.activeRow, s.rowLength + 1, s.columnIndices + [p.col])
    else
      Scan(Pad(s.rowRanges, s.activeRow, p.row, s.rowLength),
           if s.activeRow < p.row then p.row else s.activeRow,
           1, s.columnIndices + [p.col])
  }

  /** The state before the first position: `row_ranges == [0]`. */
  const Start: Scan := Scan([0], 0, 0, [])

  /** The state after the first `n` positions. */
  function Run(ps: seq<Position>, n: nat): Scan
    requires n <= |ps|
  {
    if n == 0 then Start else Step(Run(ps, n - 1), ps[n - 1])
  }

  /** The final push that closes the last open row. */
  function Close(s: Scan): ParityCheckMatrix {
    ParityCheckMatrix(s.rowRanges + [LastOrZero(s.rowRanges) + s.rowLength], s.columnIndices)
  }

  /** The matrix `new` builds from `ps`, exactly as written. */
  function Build(ps: seq<Position>): ParityCheckMatrix {
    Close(Run(ps, |ps|))
  }

  // ---------------------------------------------------------------------------
  // Reference definitions
  // ---------------------------------------------------------------------------

  ghost predicate NonDecreasing(s: seq<nat>) {
    forall i :: 0 < i < |s| ==> s[i - 1] <= s[i]
  }

  /** The `col` components of `ps`, in input order. */
  function Cols(ps: seq<Position>): seq<nat> {
    seq(|ps|, i requires 0 <= i < |ps| => ps[i].col)
  }

  /** The input order `new` assumes: ascending by row. */
  ghost predicate Sorted(ps: seq<Position>) {
    forall i, j :: 0 <= i < j < |ps| ==> ps[i].row <= ps[j].row
  }

  /** Consecutive positions never skip a row (the first row may be any). */
  ghost predicate NoGapAfterNonEmptyRow(ps: seq<Position>) {
    forall i :: 0 < i < |ps| ==> ps[i].row <= ps[i - 1].row + 1
  }

  ghost predicate WellFormed(ps: seq<Position>) {
    Sorted(ps) && NoGapAfterNonEmptyRow(ps)
  }

  /** The number of the first `n` positions that lie in rows before `r`. */
  function CountBelow(ps: seq<Position>, n: nat, r: nat): nat
    requires n <= |ps|
  {
    if n == 0 then 0 else CountBelow(ps, n - 1, r) + (if ps[n - 1].row < r then 1 else 0)
  }

  /** The row of the `n`-th position, 0 when `n` is 0. */
  function LastRow(ps: seq<Position>, n: nat): nat
    requires n <= |ps|
  {
    if n == 0 then 0 else ps[n - 1].row
  }

  /** The row offsets a row-compressed layout of `ps` has: one entry per row
      up to the last row, plus the closing entry. */
  function Offsets(ps: seq<Position>): seq<nat> {
    seq(LastRow(ps, |ps|) + 2, i requires 0 <= i => CountBelow(ps, |ps|, i))
  }

  /** The columns of the first `n` positions that lie in row `r`, in input order. */
  function ColsInRow(ps: seq<Position>, n: nat, r: nat): seq<nat>
    requires n <= |ps|
  {
    if n == 0 then []
    else ColsInRow(ps, n - 1, r) + (if ps[n - 1].row == r then [ps[n - 1].col] else [])
  }

  // ---------------------------------------------------------------------------
  // ParityCheckMatrix::new
  // ---------------------------------------------------------------------------

  method New(positions: seq<Position>) returns (m: ParityCheckMatrix)
    ensures m == Build(positions)
    ensures |m.rowRanges| >= 2 && m.rowRanges[0] == 0 && NonDecreasing(m.rowRanges)
    ensures m.columnIndices == Cols(positions) && |m.columnIndices| == |positions|
    ensures positions == [] ==> m == ParityCheckMatrix([0, 0], [])
    ensures WellFormed(positions) ==> m.rowRanges == Offsets(positions)
    ensures WellFormed(positions) ==> forall row :: RowInBounds(m, row)
  {
    var columnIndices: seq<nat> := [];
    var rowRanges: seq<nat> := [0];
    var activeRow: nat := 0;
    var rowLength: nat := 0;
    for i := 0 to |positions|
      invariant Scan(rowRanges, activeRow, rowLength, columnIndices) == Run(positions, i)
    {
      var row, col := positions[i].row, positions[i].col;
      if row == activeRow {
        rowLength := rowLength + 1;
      } else {
        rowRanges, activeRow := PadRows(rowRanges, activeRow, row, rowLength);
        rowLength := 1;
      }
      columnIndices := columnIndices + [col];
    }
    rowRanges := rowRanges + [LastOrZero(rowRanges) + rowLength];
    m := ParityCheckMatrix(rowRanges, columnIndices);
    BuildContract(positions, m);
    if positions == [] {
      BuildEmpty();
    }
  }

  /** What `New` promises about the matrix it is proved to build. */
  lemma BuildContract(ps: seq<Position>, m: ParityCheckMatrix)
    requires m == Build(ps)
    ensures |m.rowRanges| >= 2 && m.rowRanges[0] == 0 && NonDecreasing(m.rowRanges)
    ensures m.columnIndices == Cols(ps) && |m.columnIndices| == |ps|
    ensures WellFormed(ps) ==> m.rowRanges == Offsets(ps)
    ensures WellFormed(ps) ==> forall row :: RowInBounds(m, row)
  {
    BuildInvariant(ps);
    if WellFormed(ps) {
      BuildWellFormed(ps);
      OffsetsInBounds(ps, m);
    }
  }

  /** With no positions, `New` builds the empty matrix of one row. */
  lemma BuildEmpty()
    ensures Build([]) == ParityCheckMatrix([0, 0], [])
  {
    assert Run([], 0) == Start;
  }

  // ---------------------------------------------------------------------------
  // Invariants that hold for every input
  // ---------------------------------------------------------------------------

  /** Padding appends one offset per skipped row, each `rowLength` past the
      one before it: after a non-empty row every skipped row gets a range of
      length `rowLength` instead of 0. */
  lemma {:induction false} PadRepeatsRowLength(rowRanges: seq<nat>, activeRow: nat, row: nat, rowLength: nat)
    ensures var p := Pad(rowRanges, activeRow, row, rowLength);
      && |p| == |rowRanges| + (if activeRow < row then row - activeRow else 0)
      && p[..|rowRanges|] == rowRanges
      && (|rowRanges| < |p| ==> p[|rowRanges|] == LastOrZero(rowRanges) + rowLength)
      && forall j :: |rowRanges| < j < |p| ==> p[j] == p[j - 1] + rowLength
    decreases row - activeRow
  {
    if activeRow < row {
      var next := rowRanges + [LastOrZero(rowRanges) + rowLength];
      PadRepeatsRowLength(next, activeRow + 1, row, rowLength);
      var p := Pad(rowRanges, activeRow, row, rowLength);
      assert p[..|rowRanges|] == p[..|next|][..|rowRanges|];
      assert p[|rowRanges|] == p[..|next|][|rowRanges|];
    }
  }

  /** Padding with a zero row length repeats the last offset. */
  lemma {:induction false} PadZero(rowRanges: seq<nat>, activeRow: nat, row: nat)
    requires activeRow <= row
    ensures var p := Pad(rowRanges, activeRow, row, 0);
      && |p| == |rowRanges| + (row - activeRow)
      && (forall j :: 0 <= j < |rowRanges| ==> p[j] == rowRanges[j])
      && (forall j :: |rowRanges| <= j < |p| ==> p[j] == LastOrZero(rowRanges))
    decreases row - activeRow
  {
    if activeRow < row {
      var next := rowRanges + [LastOrZero(rowRanges)];
      PadZero(next, activeRow + 1, row);
      assert LastOrZero(next) == LastOrZero(rowRanges);
    }
  }

  /** Padding keeps the offsets' first entry and keeps them non-decreasing,
      whatever the row length. */
  lemma {:induction false} PadNonDecreasing(rowRanges: seq<nat>, activeRow: nat, row: nat, rowLength: nat)
    requires |rowRanges| >= 1 && NonDecreasing(rowRanges)
    ensures var p := Pad(rowRanges, activeRow, row, rowLength);
      |p| >= 1 && p[0] == rowRanges[0] && NonDecreasing(p)
    decreases row - activeRow
  {
    if activeRow < row {
      PadNonDecreasing(rowRanges + [LastOrZero(rowRanges) + rowLength], activeRow + 1, row, rowLength);
    }
  }

  /** Every state of the loop keeps `row_ranges[0] == 0`, offsets that never
      decrease, and the columns pushed so far in input order. */
  lemma {:induction false} RunInvariant(ps: seq<Position>, n: nat)
    requires n <= |ps|
    ensures var s := Run(ps, n);
      && |s.rowRanges| >= 1 && s.rowRanges[0] == 0 && NonDecreasing(s.rowRanges)
      && |s.columnIndices| == n
      && forall i :: 0 <= i < n ==> s.columnIndices[i] == ps[i].col
  {
    if n > 0 {
      RunInvariant(ps, n - 1);
      var s := Run(ps, n - 1);
      PadNonDecreasing(s.rowRanges, s.activeRow, ps[n - 1].row, s.rowLength);
    }
  }

  /** `new` always yields offsets starting at 0 that never decrease, at least
      one (possibly empty) row, and every input column in input order. */
  lemma BuildInvariant(ps: seq<Position>)
    ensures var m := Build(ps);
      && |m.rowRanges| >= 2 && m.rowRanges[0] == 0 && NonDecreasing(m.rowRanges)
      && m.columnIndices == Cols(ps) && |m.columnIndices| == |ps|
  {
    RunInvariant(ps, |ps|);
  }

  // ---------------------------------------------------------------------------
  // The padding as evidently intended: skipped rows get empty ranges
  // ---------------------------------------------------------------------------

  /** `Step` with the skipped rows padded by empty ranges: the first push
      closes the open row, every further push adds 0. */
  function StepZeroPadded(s: Scan, p: Position): Scan {
    if p.row == s.activeRow then
      Scan(s.rowRanges, s.activeRow, s.rowLength + 1, s.columnIndices + [p.col])
    else if s.activeRow < p.row then
      Scan(Pad(s.rowRanges + [LastOrZero(s.rowRanges) + s.rowLength], s.activeRow + 1, p.row, 0),
           p.row, 1, s.columnIndices + [p.col])
    else
      Scan(s.rowRanges, s.activeRow, 1, s.columnIndices + [p.col])
  }

  function RunZeroPadded(ps: seq<Position>, n: nat): Scan
    requires n <= |ps|
  {
    if n == 0 then Start else StepZeroPadded(RunZeroPadded(ps, n - 1), ps[n - 1])
  }

  function BuildZeroPadded(ps: seq<Position>): ParityCheckMatrix {
    Close(RunZeroPadded(ps, |ps|))
  }

  /** The inner `while active_row < row` loop of `new`, as written. */
  method PadRows(rowRanges: seq<nat>, activeRow: nat, row: nat, rowLength: nat)
    returns (padded: seq<nat>, reached: nat)
    ensures padded == Pad(rowRanges, activeRow, row, rowLength)
    ensures reached == if activeRow < row then row else activeRow
  {
    padded, reached := rowRanges, activeRow;
    while reached < row
      invariant Pad(padded, reached, row, rowLength) == Pad(rowRanges, activeRow, row, rowLength)
      invariant if activeRow < row then reached <= row else reached == activeRow
      decreases row - reached
    {
      padded := padded + [LastOrZero(padded) + rowLength];
      reached := reached + 1;
    }
  }

  /** The corrected padding loop: the row length is reset to 0 after the
      first push, so only the open row gets a non-empty range. */
  method PadRowsZero(rowRanges: seq<nat>, activeRow: nat, row: nat, rowLength: nat)
    returns (padded: seq<nat>, reached: nat)
    ensures padded == if activeRow < row
      then Pad(rowRanges + [LastOrZero(rowRanges) + rowLength], activeRow + 1, row, 0)
      else rowRanges
    ensures reached == if activeRow < row then row else activeRow
  {
    padded, reached := rowRanges, activeRow;
    var length := rowLength;
    while reached < row
      invariant reached == activeRow ==> padded == rowRanges && length == rowLength
      invariant reached != activeRow ==>
        && activeRow < reached <= row && length == 0
        && Pad(padded, reached, row, 0)
           == Pad(rowRanges + [LastOrZero(rowRanges) + rowLength], activeRow + 1, row, 0)
      decreases row - reached
    {
      padded := padded + [LastOrZero(padded) + length];
      length := 0;
      reached := reached + 1;
    }
  }

  /** `new` with the padding loop corrected: the row length is reset to 0
      after the first push, so only the open row gets a non-empty range and
      every skipped row an empty one. For every input sorted by row the
      offsets are the reference offsets and every row can be sliced. */
  method NewZeroPadded(positions: seq<Position>) returns (m: ParityCheckMatrix)
    ensures m == BuildZeroPadded(positions)
    ensures m.columnIndices == Cols(positions)
    ensures Sorted(positions) ==> m.rowRanges == Offsets(positions)
    ensures Sorted(positions) ==> forall row :: RowInBounds(m, row)
  {
    var columnIndices: seq<nat> := [];
    var rowRanges: seq<nat> := [0];
    var activeRow: nat := 0;
    var rowLength: nat := 0;
    for i := 0 to |positions|
      invariant Scan(rowRanges, activeRow, rowLength, columnIndices) == RunZeroPadded(positions, i)
    {
      var row, col := positions[i].row, positions[i].col;
      if row == activeRow {
        rowLength := rowLength + 1;
      } else {
        rowRanges, activeRow := PadRowsZero(rowRanges, activeRow, row, rowLength);
        rowLength := 1;
      }
      columnIndices := columnIndices + [col];
    }
    rowRanges := rowRanges + [LastOrZero(rowRanges) + rowLength];
    m := ParityCheckMatrix(rowRanges, columnIndices);
    BuildZeroPaddedColumns(positions);
    if Sorted(positions) {
      BuildZeroPaddedOffsets(positions);
      OffsetsInBounds(positions, m);
    }
  }

  /** In a sorted input, all of the first `n` positions lie in rows before
      any row past the `n`-th position's. */
  lemma {:induction false} CountBelowAll(ps: seq<Position>, n: nat, r: nat)
    requires Sorted(ps) && n <= |ps| && (n > 0 ==> ps[n - 1].row < r)
    ensures CountBelow(ps, n, r) == n
  {
    if n > 0 {
      if n > 1 {
        assert ps[n - 2].row <= ps[n - 1].row;
      }
      CountBelowAll(ps, n - 1, r);
    }
  }

  lemma {:induction false} CountBelowMono(ps: seq<Position>, n: nat, r: nat, r': nat)
    requires n <= |ps| && r <= r'
    ensures CountBelow(ps, n, r) <= CountBelow(ps, n, r') <= n
  {
    if n > 0 {
      CountBelowMono(ps, n - 1, r, r');
    }
  }

  /** What the zero-padded loop keeps after the first `n` positions of a
      sorted input: one offset per row up to the active row, each the number
      of earlier positions, and the open row's length. */
  ghost predicate Counted(ps: seq<Position>, n: nat, s: Scan)
    requires n <= |ps|
  {
    && s.activeRow == LastRow(ps, n)
    && |s.rowRanges| == LastRow(ps, n) + 1
    && (forall i :: 0 <= i < |s.rowRanges| ==> s.rowRanges[i] == CountBelow(ps, n, i))
    && s.rowLength + CountBelow(ps, n, LastRow(ps, n)) == n
  }

  /** A position in the open row extends it. */
  lemma ZeroPaddedSameRow(ps: seq<Position>, n: nat)
    requires 0 < n <= |ps| && Counted(ps, n - 1, RunZeroPadded(ps, n - 1))
    requires ps[n - 1].row == RunZeroPadded(ps, n - 1).activeRow
    ensures Counted(ps, n, RunZeroPadded(ps, n))
  {
  }

  /** A position in a later row closes the open row and pads the skipped
      rows with empty ranges. */
  lemma ZeroPaddedNewRow(ps: seq<Position>, n: nat)
    requires 0 < n <= |ps| && Sorted(ps) && Counted(ps, n - 1, RunZeroPadded(ps, n - 1))
    requires RunZeroPadded(ps, n - 1).activeRow < ps[n - 1].row
    ensures Counted(ps, n, RunZeroPadded(ps, n))
  {
    var s, p := RunZeroPadded(ps, n - 1), ps[n - 1];
    assert s.rowRanges[s.activeRow] == CountBelow(ps, n - 1, s.activeRow);
    var last := LastOrZero(s.rowRanges) + s.rowLength;
    assert last == n - 1;
    var t := RunZeroPadded(ps, n);
    assert t == StepZeroPadded(s, p);
    assert t.rowRanges == Pad(s.rowRanges + [last], s.activeRow + 1, p.row, 0);
    PadAfterClose(s.rowRanges, last, s.activeRow, p.row);
    forall i | 0 <= i < |t.rowRanges|
      ensures t.rowRanges[i] == CountBelow(ps, n, i)
    {
      if s.activeRow < i {
        CountBelowAll(ps, n - 1, i);
      }
    }
    CountBelowAll(ps, n - 1, p.row);
  }

  /** Closing row `a` with offset `last` and padding with empty ranges up to
      `row` keeps the first `a + 1` offsets and repeats `last` after them. */
  lemma PadAfterClose(rowRanges: seq<nat>, last: nat, a: nat, row: nat)
    requires |rowRanges| == a + 1 && a < row
    ensures var q := Pad(rowRanges + [last], a + 1, row, 0);
      && |q| == row + 1
      && (forall i :: 0 <= i <= a ==> q[i] == rowRanges[i])
      && (forall i :: a < i <= row ==> q[i] == last)
  {
    PadZero(rowRanges + [last], a + 1, row);
    assert LastOrZero(rowRanges + [last]) == last;
  }

  /** The zero-padded loop keeps `Counted` on every sorted input. */
  lemma {:induction false} RunZeroPaddedCounts(ps: seq<Position>, n: nat)
    requires Sorted(ps) && n <= |ps|
    ensures Counted(ps, n, RunZeroPadded(ps, n))
  {
    if n > 0 {
      RunZeroPaddedCounts(ps, n - 1);
      if n > 1 {
        assert ps[n - 2].row <= ps[n - 1].row;
      }
      if ps[n - 1].row == RunZeroPadded(ps, n - 1).activeRow {
        ZeroPaddedSameRow(ps, n);
      } else {
        ZeroPaddedNewRow(ps, n);
      }
    }
  }

  lemma {:induction false} RunZeroPaddedColumns(ps: seq<Position>, n: nat)
    requires n <= |ps|
    ensures |RunZeroPadded(ps, n).columnIndices| == n
    ensures forall i :: 0 <= i < n ==> RunZeroPadded(ps, n).columnIndices[i] == ps[i].col
  {
    if n > 0 {
      RunZeroPaddedColumns(ps, n - 1);
    }
  }

  lemma ColsPointwise(ps: seq<Position>, cols: seq<nat>)
    requires |cols| == |ps| && forall i :: 0 <= i < |ps| ==> cols[i] == ps[i].col
    ensures cols == Cols(ps)
  {
  }

  /** Closing a counted state gives the reference offsets. */
  lemma CloseCounted(ps: seq<Position>, s: Scan)
    requires Counted(ps, |ps|, s)
    requires CountBelow(ps, |ps|, LastRow(ps, |ps|) + 1) == |ps|
    ensures Close(s).rowRanges == Offsets(ps)
  {
    var m := Close(s);
    assert |m.rowRanges| == |Offsets(ps)|;
    forall i | 0 <= i < |m.rowRanges| ensures m.rowRanges[i] == Offsets(ps)[i] {
      if i < |s.rowRanges| {
        assert m.rowRanges[i] == s.rowRanges[i];
      }
    }
  }

  /** Corrected padding: with empty ranges for skipped rows, every input
      sorted by row yields exactly the reference offsets, gaps or not. */
  lemma BuildZeroPaddedOffsets(ps: seq<Position>)
    requires Sorted(ps)
    ensures BuildZeroPadded(ps).rowRanges == Offsets(ps)
    ensures BuildZeroPadded(ps).columnIndices == Cols(ps)
  {
    RunZeroPaddedCounts(ps, |ps|);
    CountBelowAll(ps, |ps|, LastRow(ps, |ps|) + 1);
    CloseCounted(ps, RunZeroPadded(ps, |ps|));
    BuildZeroPaddedColumns(ps);
  }

  lemma BuildZeroPaddedColumns(ps: seq<Position>)
    ensures BuildZeroPadded(ps).columnIndices == Cols(ps)
  {
    RunZeroPaddedColumns(ps, |ps|);
    ColsPointwise(ps, RunZeroPadded(ps, |ps|).columnIndices);
  }

  /** On input sorted by row, the corrected loop's open row is the row of
      the last position read. */
  lemma {:induction false} RunZeroPaddedActiveRow(ps: seq<Position>, n: nat)
    requires Sorted(ps) && n <= |ps|
    ensures RunZeroPadded(ps, n).activeRow == LastRow(ps, n)
  {
    if n > 1 {
      RunZeroPaddedActiveRow(ps, n - 1);
      assert ps[n - 2].row <= ps[n - 1].row;
    }
  }

  /** Without a row gap after a non-empty row, the loop as written and the
      zero-padded loop go through the same states. */
  lemma {:induction false} RunMatchesZeroPadded(ps: seq<Position>, n: nat)
    requires WellFormed(ps) && n <= |ps|
    ensures Run(ps, n) == RunZeroPadded(ps, n)
  {
    if n > 0 {
      RunMatchesZeroPadded(ps, n - 1);
      var s, p := Run(ps, n - 1), ps[n - 1];
      if n == 1 {
        assert s == Start;
      } else {
        RunZeroPaddedActiveRow(ps, n - 1);
        assert s.activeRow == ps[n - 2].row;
        assert p.row <= s.activeRow + 1;
      }
      StepsAgree(s, p);
    }
  }

  /** One loop step pads alike, as written and corrected, when the open row
      is empty or no row is skipped. */
  lemma StepsAgree(s: Scan, p: Position)
    requires s.activeRow < p.row ==> s.rowLength == 0 || p.row == s.activeRow + 1
    ensures Step(s, p) == StepZeroPadded(s, p)
  {
    if s.activeRow < p.row {
      var next := s.rowRanges + [LastOrZero(s.rowRanges) + s.rowLength];
      assert Pad(s.rowRanges, s.activeRow, p.row, s.rowLength) == Pad(next, s.activeRow + 1, p.row, s.rowLength);
      if p.row == s.activeRow + 1 {
        assert Pad(next, p.row, p.row, s.rowLength) == next == Pad(next, p.row, p.row, 0);
      }
    }
  }

  /** For input sorted by row with no gap after a non-empty row, `new` yields
      one range per row up to the last row, and row `i` starts after exactly
      the positions of the rows before it; the closing offset is the number
      of positions. */
  lemma BuildWellFormed(ps: seq<Position>)
    requires WellFormed(ps)
    ensures var m := Build(ps);
      && m.rowRanges == Offsets(ps)
      && |m.rowRanges| == LastRow(ps, |ps|) + 2
      && m.rowRanges[|m.rowRanges| - 1] == |ps|
      && m.columnIndices == Cols(ps)
  {
    RunMatchesZeroPadded(ps, |ps|);
    BuildZeroPaddedOffsets(ps);
    CountBelowAll(ps, |ps|, LastRow(ps, |ps|) + 1);
  }

  /** Padding as written: a row gap after a non-empty row overshoots.
      Rows 0 and 2 give offsets [0, 1, 2, 3] over two columns, so row 2's
      range ends past `column_indices` and `row_slice(2)` would panic; the
      zero-padded build gives [0, 1, 1, 2]. */
  lemma GapOvershoots()
    ensures Build([Position(0, 0), Position(2, 0)]) == ParityCheckMatrix([0, 1, 2, 3], [0, 0])
    ensures !RowInBounds(Build([Position(0, 0), Position(2, 0)]), 2)
    ensures BuildZeroPadded([Position(0, 0), Position(2, 0)]) == ParityCheckMatrix([0, 1, 1, 2], [0, 0])
  {
    var ps := [Position(0, 0), Position(2, 0)];
    assert Run(ps, 1) == Scan([0], 0, 1, [0]);
    assert Pad([0], 0, 2, 1) == [0, 1, 2];
    assert Run(ps, 2) == Scan([0, 1, 2], 2, 1, [0, 0]);
    assert RunZeroPadded(ps, 1) == Scan([0], 0, 1, [0]);
    assert Pad([0, 1], 1, 2, 0) == [0, 1, 1];
    assert RunZeroPadded(ps, 2) == Scan([0, 1, 1], 2, 1, [0, 0]);
  }

  // ---------------------------------------------------------------------------
  // ParityCheckMatrix::row_slice
  // ---------------------------------------------------------------------------

  /** `Vec::get` */
  function Get(s: seq<nat>, i: nat): (r: Option<nat>)
    ensures r.Some? <==> i < |s|
    ensures r.Some? ==> r.value == s[i]
  {
    if i < |s| then Some(s[i]) else None
  }

  /** `row_slice(row)` does not panic: when both offsets exist, they bound a
      valid slice of `column_indices`. */
  ghost predicate RowInBounds(m: ParityCheckMatrix, row: nat) {
    row + 1 < |m.rowRanges| ==>
      m.rowRanges[row] <= m.rowRanges[row + 1] <= |m.columnIndices|
  }

  function RowSlice(m: ParityCheckMatrix, row: nat): (r: Option<Slice>)
    requires RowInBounds(m, row)
    ensures r.None? <==> row + 1 >= |m.rowRanges|
    ensures r.Some? ==> |r.value.positions| == m.rowRanges[row + 1] - m.rowRanges[row]
  {
    match Get(m.rowRanges, row)
    case None => None
    case Some(rowStart) =>
      match Get(m.rowRanges, row + 1)
      case None => None
      case Some(rowEnd) => Some(Slice(m.columnIndices[rowStart..rowEnd]))
  }

  /** In a sorted input, the columns of row `r` are contiguous and sit
      between the offsets of rows `r` and `r + 1`. */
  lemma {:induction false} ColsInRowContiguous(ps: seq<Position>, n: nat, r: nat)
    requires Sorted(ps) && n <= |ps|
    ensures CountBelow(ps, n, r) <= CountBelow(ps, n, r + 1) <= n
    ensures Cols(ps)[CountBelow(ps, n, r)..CountBelow(ps, n, r + 1)] == ColsInRow(ps, n, r)
  {
    CountBelowMono(ps, n, r, r + 1);
    if n > 0 {
      ColsInRowContiguous(ps, n - 1, r);
      var p := ps[n - 1];
      var lo, hi := CountBelow(ps, n - 1, r), CountBelow(ps, n - 1, r + 1);
      if p.row < r {
        CountBelowAll(ps, n - 1, r);
        CountBelowAll(ps, n - 1, r + 1);
        assert lo == hi == n - 1;
        assert CountBelow(ps, n, r) == CountBelow(ps, n, r + 1) == n;
        assert ColsInRow(ps, n, r) == ColsInRow(ps, n - 1, r) == [];
      } else if p.row == r {
        CountBelowMono(ps, n - 1, r, r + 1);
        CountBelowAll(ps, n - 1, r + 1);
        assert CountBelow(ps, n, r) == lo && CountBelow(ps, n, r + 1) == n && hi == n - 1;
        ColsSnoc(ps, lo, n);
        assert ColsInRow(ps, n, r) == ColsInRow(ps, n - 1, r) + [p.col];
      } else {
        assert CountBelow(ps, n, r) == lo && CountBelow(ps, n, r + 1) == hi;
        assert ColsInRow(ps, n, r) == ColsInRow(ps, n - 1, r);
      }
    }
  }

  /** Extending a run of input columns by one position. */
  lemma ColsSnoc(ps: seq<Position>, a: nat, n: nat)
    requires 0 < n <= |ps| && a <= n - 1
    ensures Cols(ps)[a..n] == Cols(ps)[a..n - 1] + [ps[n - 1].col]
  {
  }

  /** For a sorted input, a matrix laid out with the reference offsets has
      `row_slice(r)` holding exactly the columns of row `r`, in input order,
      for every row up to the last one, and `None` beyond it. */
  lemma RowSliceOfOffsets(ps: seq<Position>, m: ParityCheckMatrix, row: nat)
    requires Sorted(ps) && m.rowRanges == Offsets(ps) && m.columnIndices == Cols(ps)
    ensures RowInBounds(m, row)
    ensures RowSlice(m, row) ==
      if row <= LastRow(ps, |ps|) then Some(Slice(ColsInRow(ps, |ps|, row))) else None
  {
    OffsetsInBounds(ps, m);
    ColsInRowContiguous(ps, |ps|, row);
  }

  /** Offsets that count the positions below each row bound valid slices of
      a column vector with one entry per position, whatever the order. */
  lemma OffsetsInBounds(ps: seq<Position>, m: ParityCheckMatrix)
    requires m.rowRanges == Offsets(ps) && |m.columnIndices| == |ps|
    ensures forall row :: RowInBounds(m, row)
  {
    forall row: nat ensures RowInBounds(m, row) {
      CountBelowMono(ps, |ps|, row, row + 1);
    }
  }

  /** The same for the matrix `new` builds from a well-formed input. */
  lemma RowSliceOfBuild(ps: seq<Position>, row: nat)
    requires WellFormed(ps)
    ensures RowInBounds(Build(ps), row)
    ensures RowSlice(Build(ps), row) ==
      if row <= LastRow(ps, |ps|) then Some(Slice(ColsInRow(ps, |ps|, row))) else None
  {
    BuildWellFormed(ps);
    RowSliceOfOffsets(ps, Build(ps), row);
  }

  /** The same for the corrected build and EVERY input sorted by row, rows
      skipped after a non-empty row included. */
  lemma RowSliceOfBuildZeroPadded(ps: seq<Position>, row: nat)
    requires Sorted(ps)
    ensures RowInBounds(BuildZeroPadded(ps), row)
    ensures RowSlice(BuildZeroPadded(ps), row) ==
      if row <= LastRow(ps, |ps|) then Some(Slice(ColsInRow(ps, |ps|, row))) else None
  {
    BuildZeroPaddedOffsets(ps);
    RowSliceOfOffsets(ps, BuildZeroPadded(ps), row);
  }

  // ---------------------------------------------------------------------------
  // Slice::dot
  // ---------------------------------------------------------------------------

  /** How many of `positions` index a B1 entry of `other`; positions at or
      beyond `|other|` are not counted. */
  function Hits(positions: seq<nat>, other: seq<bool>): nat {
    if positions == [] then 0
    else
      var pos := positions[|positions| - 1];
      Hits(positions[..|positions| - 1], other) + (if pos < |other| && other[pos] then 1 else 0)
  }

  /** The GF(2) sum of `other` over the slice: B1 exactly when an odd number
      of the in-range positions hold B1; an empty slice gives B0. */
  method Dot(slice: Slice, other: seq<bool>) returns (total: bool)
    ensures total <==> Hits(slice.positions, other) % 2 == 1
  {
    total := false;
    for i := 0 to |slice.positions|
      invariant total <==> Hits(slice.positions[..i], other) % 2 == 1
    {
      assert slice.positions[..i + 1][..i] == slice.positions[..i];
      var pos := slice.positions[i];
      if pos < |other| {
        total := total != other[pos];
      }
    }
    assert slice.positions[..|slice.positions|] == slice.positions;
  }

  /** The dot product is linear: over a concatenation of two slices it is the
      GF(2) sum of the two dot products. */
  lemma {:induction false} HitsConcat(a: seq<nat>, b: seq<nat>, other: seq<bool>)
    ensures Hits(a + b, other) == Hits(a, other) + Hits(b, other)
    ensures (Hits(a + b, other) % 2 == 1) == ((Hits(a, other) % 2 == 1) != (Hits(b, other) % 2 == 1))
  {
    if b == [] {
      assert a + b == a;
    } else {
      var b' := b[..|b| - 1];
      assert (a + b)[..|a + b| - 1] == a + b';
      assert (a + b)[|a + b| - 1] == b[|b| - 1];
      HitsConcat(a, b', other);
    }
  }

  /** The repetition code of three bits: rows 0 and 1, each with two
      columns. */
  const RepetitionCode: seq<Position> := [Position(0, 0), Position(0, 1), Position(1, 1), Position(1, 2)]

  lemma RepetitionCodeRows()
    ensures WellFormed(RepetitionCode) && LastRow(RepetitionCode, 4) == 1
    ensures ColsInRow(RepetitionCode, 4, 0) == [0, 1] && ColsInRow(RepetitionCode, 4, 1) == [1, 2]
  {
    var ps := RepetitionCode;
    assert ColsInRow(ps, 2, 0) == [0, 1] && ColsInRow(ps, 2, 1) == [];
  }

  lemma RepetitionCodeHits()
    ensures Hits([0, 1], [false, true, true]) == 1
    ensures Hits([1, 2], [false, true, true]) == 2
  {
    assert [0, 1][..1] == [0] && [0][..0] == [];
    assert [1, 2][..1] == [1] && [1][..0] == [];
  }

  /** The `dot_product` unit test: the repetition code of three bits, dotted
      with [B0, B1, B1], gives B1 on row 0 and B0 on row 1. */
  method DotProductExample() returns (row0: bool, row1: bool)
    ensures row0 && !row1
  {
    var bits := [false, true, true];
    var m := New(RepetitionCode);
    RepetitionCodeRows();
    RowSliceOfBuild(RepetitionCode, 0);
    RowSliceOfBuild(RepetitionCode, 1);
    var s0 := RowSlice(m, 0);
    var s1 := RowSlice(m, 1);
    RepetitionCodeHits();
    row0 := Dot(s0.value, bits);
    row1 := Dot(s1.value, bits);
  }
}
