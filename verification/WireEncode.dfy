/** The server's payload encoders: full states, row-segment deltas and pane prefixes. */
module WireEncode {
  import opened Bytes
  import opened Grid

  const LOCAL_INPUT_SEQ_LEN: nat := 8
  const FULL_HEADER_LEN: nat := 14
  const DELTA_HEADER_LEN: nat := 13
  const PANE_HEADER_LEN: nat := 28
  const TRAILER_MAGIC: seq<byte> := [0x42, 0x52, 0x52, 0x31]

  function SaturatingAdd(a: u64, b: nat): u64 {
    if a + b < U64_LIMIT then a + b else U64_LIMIT - 1
  }

  function InputSeqPrefix(latestInputSeq: Option<u64>, local: bool): (s: seq<byte>)
    ensures |s| == if local then LOCAL_INPUT_SEQ_LEN else 0
  {
    if !local then [] else LE(if latestInputSeq.Some? then latestInputSeq.value else 0, 8)
  }

  // ---- row replica trailer ----

  function EncodeIds(ids: seq<u64>): seq<byte> {
    if ids == [] then [] else LE(ids[0], 8) + EncodeIds(ids[1..])
  }

  function Trailer(g: RemoteFullState, ids: seq<u64>): seq<byte> {
    var n := Min(|ids|, U16_LIMIT - 1);
    TRAILER_MAGIC + LE(g.epoch, 8) + LE(g.viewportTop, 8) + LE(g.scrollbackTotal, 8)
    + LE(SaturatingAdd(g.viewportTop, g.cursorY), 8) + LE(n, 2) + EncodeIds(ids[..n])
  }

  // ---- full state ----

  function FullHeader(g: RemoteFullState): (s: seq<byte>)
    ensures |s| == FULL_HEADER_LEN
  {
    LE(g.rows, 2) + LE(g.cols, 2) + LE(g.cursorX, 2) + LE(g.cursorY, 2)
    + [FromBool(g.cursorVisible), FromBool(g.cursorBlinking)] + LE(I32Bits(g.cursorStyle), 4)
  }

  function RowIds(g: RemoteFullState): seq<u64> {
    seq(g.rows, i requires 0 <= i < g.rows => SaturatingAdd(g.viewportTop, i))
  }

  function FullPayload(g: RemoteFullState, latestInputSeq: Option<u64>, local: bool): seq<byte> {
    InputSeqPrefix(latestInputSeq, local) + FullHeader(g) + EncodeCells(g.cells)
    + Trailer(g, RowIds(g))
  }

  lemma AppendCellStep(payload: seq<byte>, cells: seq<RemoteCell>, i: nat)
    requires i < |cells|
    ensures payload + EncodeCells(cells[..i]) + EncodeCell(cells[i])
            == payload + EncodeCells(cells[..i + 1])
  {
    hide EncodeCell, EncodeCells;
    EncodeCellsAppend(cells[..i], cells[i]);
    assert cells[..i + 1] == cells[..i] + [cells[i]];
    AppendEqual(payload, EncodeCells(cells[..i]), EncodeCell(cells[i]), EncodeCells(cells[..i + 1]));
  }

  /** The encoders' inner loop. */
  method AppendCells(payload: seq<byte>, cells: seq<RemoteCell>) returns (r: seq<byte>)
    ensures r == payload + EncodeCells(cells)
  {
    r := payload;
    assert payload == payload + [];
    for i := 0 to |cells|
      invariant r == payload + EncodeCells(cells[..i])
    {
      AppendCellStep(payload, cells, i);
      r := r + EncodeCell(cells[i]);
    }
    assert cells[..|cells|] == cells;
  }

  method EncodeFullState(g: RemoteFullState, latestInputSeq: Option<u64>, local: bool)
    returns (payload: seq<byte>)
    ensures payload == FullPayload(g, latestInputSeq, local)
  {
    payload := AppendCells(InputSeqPrefix(latestInputSeq, local) + FullHeader(g), g.cells);
    payload := payload + Trailer(g, RowIds(g));
  }

  // ---- changed segments ----

  datatype RowDelta = RowDelta(row: u16, startCol: u16, cells: seq<RemoteCell>)

  predicate AgreeOutside(p: seq<RemoteCell>, c: seq<RemoteCell>, lo: nat, hi: nat)
    requires |p| == |c|
  {
    forall k :: 0 <= k < |c| && !(lo <= k < hi) ==> p[k] == c[k]
  }

  /** Index of the first differing column, or the length when there is none. */
  function FirstDiff(p: seq<RemoteCell>, c: seq<RemoteCell>): (i: nat)
    requires |p| == |c|
    ensures i <= |c|
    ensures forall k :: 0 <= k < i ==> p[k] == c[k]
    ensures i < |c| ==> p[i] != c[i]
  {
    if c == [] || p[0] != c[0] then 0
    else
      var k := FirstDiff(p[1..], c[1..]);
      assert forall j :: 1 <= j < |c| ==> p[j] == p[1..][j - 1] && c[j] == c[1..][j - 1];
      k + 1
  }

  /** One past the last differing column, or 0 when there is none. */
  function LastDiffEnd(p: seq<RemoteCell>, c: seq<RemoteCell>): (j: nat)
    requires |p| == |c|
    ensures j <= |c|
    ensures forall k :: j <= k < |c| ==> p[k] == c[k]
    ensures j > 0 ==> p[j - 1] != c[j - 1]
  {
    var n := |c|;
    if n == 0 || p[n - 1] != c[n - 1] then n else LastDiffEnd(p[..n - 1], c[..n - 1])
  }

  /** `changed_segment`. The contract is that of the least interval holding every difference. */
  function ChangedSegment(p: seq<RemoteCell>, c: seq<RemoteCell>): (s: (nat, seq<RemoteCell>))
    requires |p| == |c|
    ensures p == c <==> s.1 == []
    ensures s.0 + |s.1| <= |c| && s.1 == c[s.0..s.0 + |s.1|]
    ensures AgreeOutside(p, c, s.0, s.0 + |s.1|)
    ensures s.1 != [] ==> p[s.0] != c[s.0] && p[s.0 + |s.1| - 1] != c[s.0 + |s.1| - 1]
  {
    var first := FirstDiff(p, c);
    if first == |c| then (0, []) else (first, c[first..LastDiffEnd(p, c)])
  }

  /** Least: an interval outside which the rows agree contains the segment. */
  lemma ChangedSegmentLeast(p: seq<RemoteCell>, c: seq<RemoteCell>, lo: nat, hi: nat)
    requires |p| == |c| && AgreeOutside(p, c, lo, hi)
    ensures var s := ChangedSegment(p, c);
            s.1 != [] ==> lo <= s.0 && s.0 + |s.1| <= hi
  {
    var s := ChangedSegment(p, c);
    if s.1 != [] {
      assert lo <= s.0 < hi;
      assert lo <= s.0 + |s.1| - 1 < hi;
    }
  }

  // ---- delta ----

  predicate SameSize(p: RemoteFullState, c: RemoteFullState) {
    p.WellFormed() && c.WellFormed() && p.rows == c.rows && p.cols == c.cols
  }

  type CellRows = seq<seq<RemoteCell>>

  function RowsOf(g: RemoteFullState): (rows: CellRows)
    requires g.WellFormed()
    ensures |rows| == g.rows
    ensures forall r :: 0 <= r < g.rows ==> rows[r] == g.Row(r) && |rows[r]| == g.cols
  {
    seq(g.rows, r requires 0 <= r < g.rows => g.Row(r))
  }

  /** Rows of two grids of one size. */
  predicate Aligned(p: CellRows, c: CellRows, cols: nat) {
    |p| == |c| && forall r :: 0 <= r < |c| ==> |p[r]| == cols && |c[r]| == cols
  }

  lemma SameSizeAligned(p: RemoteFullState, c: RemoteFullState)
    requires SameSize(p, c)
    ensures Aligned(RowsOf(p), RowsOf(c), c.cols)
  {
  }

  function RowChange(p: CellRows, c: CellRows, cols: nat, r: nat): (d: seq<RowDelta>)
    requires Aligned(p, c, cols) && r < |c| < U16_LIMIT && cols < U16_LIMIT
    ensures |d| <= 1
  {
    if p[r] == c[r] then []
    else
      var s := ChangedSegment(p[r], c[r]);
      [RowDelta(r, s.0, s.1)]
  }

  /** The changed rows among the first `n`. */
  function ChangedRows(p: CellRows, c: CellRows, cols: nat, n: nat): (d: seq<RowDelta>)
    requires Aligned(p, c, cols) && n <= |c| < U16_LIMIT && cols < U16_LIMIT
    ensures |d| <= n
  {
    if n == 0 then [] else ChangedRows(p, c, cols, n - 1) + RowChange(p, c, cols, n - 1)
  }

  /** All the row changes from one grid to the next. */
  function Changes(p: RemoteFullState, c: RemoteFullState): (d: seq<RowDelta>)
    requires SameSize(p, c)
    ensures |d| <= c.rows
  {
    ChangedRows(RowsOf(p), RowsOf(c), c.cols, c.rows)
  }

  predicate FullWidth(rd: RowDelta, cols: nat) {
    rd.startCol == 0 && |rd.cells| == cols
  }

  predicate AllFullWidth(d: seq<RowDelta>, cols: nat) {
    forall i :: 0 <= i < |d| ==> FullWidth(d[i], cols)
  }

  function DeltaHeader(g: RemoteFullState, changed: nat): (s: seq<byte>)
    ensures |s| == DELTA_HEADER_LEN
  {
    LE(changed, 2) + LE(g.cursorX, 2) + LE(g.cursorY, 2)
    + [FromBool(g.cursorVisible), FromBool(g.cursorBlinking), 0] + LE(I32Bits(g.cursorStyle), 4)
  }

  function EncodeRow(rd: RowDelta): seq<byte> {
    LE(rd.row, 2) + LE(rd.startCol, 2) + LE(|rd.cells|, 2) + EncodeCells(rd.cells)
  }

  function EncodeRows(d: seq<RowDelta>): seq<byte> {
    if d == [] then [] else EncodeRow(d[0]) + EncodeRows(d[1..])
  }

  function ChangedIds(g: RemoteFullState, d: seq<RowDelta>): seq<u64> {
    seq(|d|, i requires 0 <= i < |d| => SaturatingAdd(g.viewportTop, d[i].row))
  }

  function DeltaPayload(c: RemoteFullState, d: seq<RowDelta>, latestInputSeq: Option<u64>, local: bool)
    : seq<byte>
  {
    InputSeqPrefix(latestInputSeq, local) + DeltaHeader(c, |d|) + EncodeRows(d)
    + Trailer(c, ChangedIds(c, d))
  }

  /** Whether the server falls back to a full state. */
  predicate FallsBack(p: RemoteFullState, c: RemoteFullState)
    requires p.WellFormed() && c.WellFormed()
  {
    !SameSize(p, c)
    || (Changes(p, c) != [] && |Changes(p, c)| == c.rows && AllFullWidth(Changes(p, c), c.cols))
  }

  function Delta(p: RemoteFullState, c: RemoteFullState, latestInputSeq: Option<u64>, local: bool)
    : Option<seq<byte>>
    requires p.WellFormed() && c.WellFormed()
  {
    if FallsBack(p, c) then None
    else Some(DeltaPayload(c, Changes(p, c), latestInputSeq, local))
  }

  lemma {:induction false} EqualRowsHaveNoChanges(p: CellRows, cols: nat, n: nat)
    requires Aligned(p, p, cols) && n <= |p| < U16_LIMIT && cols < U16_LIMIT
    ensures ChangedRows(p, p, cols, n) == []
  {
    hide ChangedSegment;
    if n == 0 {
    } else {
      EqualRowsHaveNoChanges(p, cols, n - 1);
    }
  }

  lemma EqualCellsHaveNoChanges(p: RemoteFullState, c: RemoteFullState)
    requires SameSize(p, c) && p.cells == c.cells
    ensures Changes(p, c) == []
  {
    assert RowsOf(p) == RowsOf(c);
    EqualRowsHaveNoChanges(RowsOf(c), c.cols, c.rows);
  }

  lemma {:induction false} NoChangesEqualRow(p: CellRows, c: CellRows, cols: nat, n: nat, r: nat)
    requires Aligned(p, c, cols) && r < n <= |c| < U16_LIMIT && cols < U16_LIMIT && ChangedRows(p, c, cols, n) == []
    ensures p[r] == c[r]
  {
    hide ChangedRows, RowChange, ChangedSegment;
    NoChangesBefore(p, c, cols, n);
    if r == n - 1 {
      NoRowChange(p, c, cols, r);
    } else {
      NoChangesEqualRow(p, c, cols, n - 1, r);
    }
  }

  lemma NoChangesBefore(p: CellRows, c: CellRows, cols: nat, n: nat)
    requires Aligned(p, c, cols) && 0 < n <= |c| < U16_LIMIT && cols < U16_LIMIT && ChangedRows(p, c, cols, n) == []
    ensures ChangedRows(p, c, cols, n - 1) == [] && RowChange(p, c, cols, n - 1) == []
  {
    hide RowChange, ChangedSegment;
    assert |ChangedRows(p, c, cols, n - 1) + RowChange(p, c, cols, n - 1)| == 0;
  }

  lemma NoRowChange(p: CellRows, c: CellRows, cols: nat, r: nat)
    requires Aligned(p, c, cols) && r < |c| < U16_LIMIT && cols < U16_LIMIT
    ensures RowChange(p, c, cols, r) == [] <==> p[r] == c[r]
  {
    hide ChangedSegment;
  }

  /** No row changes are found exactly when the grids hold the same cells. */
  lemma NoChangesExactly(p: RemoteFullState, c: RemoteFullState)
    requires SameSize(p, c)
    ensures Changes(p, c) == [] <==> p.cells == c.cells
  {
    hide ChangedRows;
    if Changes(p, c) == [] {
      forall r: nat | r < c.rows ensures p.Row(r) == c.Row(r) {
        NoChangesEqualRow(RowsOf(p), RowsOf(c), c.cols, c.rows, r);
        assert RowsOf(p)[r] == RowsOf(c)[r];
      }
      RowsDetermineCells(p, c);
    }
    if p.cells == c.cells {
      EqualCellsHaveNoChanges(p, c);
    }
  }

  lemma {:induction false} EncodeRowsAppend(d: seq<RowDelta>, rd: RowDelta)
    ensures EncodeRows(d + [rd]) == EncodeRows(d) + EncodeRow(rd)
  {
    hide EncodeRow;
    if d == [] {
      assert d + [rd] == [rd];
      assert EncodeRows([rd]) == EncodeRow(rd) + EncodeRows([]);
    } else {
      assert (d + [rd])[1..] == d[1..] + [rd];
      EncodeRowsAppend(d[1..], rd);
    }
  }

  // ---- payload sizes ----

  lemma {:induction false} IdsLength(ids: seq<u64>)
    ensures |EncodeIds(ids)| == 8 * |ids|
  {
    hide LE;
    if ids == [] {
    } else {
      IdsLength(ids[1..]);
    }
  }

  lemma TrailerLength(g: RemoteFullState, ids: seq<u64>)
    ensures |Trailer(g, ids)| <= 38 + 8 * |ids|
  {
    hide LE, EncodeIds;
    IdsLength(ids[..Min(|ids|, U16_LIMIT - 1)]);
  }

  lemma {:induction false} RowsLength(p: CellRows, c: CellRows, cols: nat, n: nat)
    requires Aligned(p, c, cols) && n <= |c| < U16_LIMIT && cols < U16_LIMIT
    ensures |EncodeRows(ChangedRows(p, c, cols, n))| <= n * (6 + 12 * cols)
  {
    hide LE, EncodeCells, ChangedSegment;
    if n == 0 {
    } else {
      var before, last := ChangedRows(p, c, cols, n - 1), RowChange(p, c, cols, n - 1);
      RowsLength(p, c, cols, n - 1);
      MulStep(n - 1, 6 + 12 * cols);
      if last == [] {
        assert before + last == before;
      } else {
        EncodeRowsAppend(before, last[0]);
        assert last == [last[0]];
      }
    }
  }

  /** No payload of a grid, whole or against another of its size, is longer than this. */
  function SizeBound(g: RemoteFullState): nat {
    60 + g.rows * (12 * g.cols + 14)
  }

  lemma PayloadLength(p: Option<RemoteFullState>, c: RemoteFullState, latestInputSeq: Option<u64>, local: bool)
    requires c.WellFormed() && (p.Some? ==> SameSize(p.value, c))
    ensures |FullPayload(c, latestInputSeq, local)| <= SizeBound(c)
    ensures p.Some? ==> |DeltaPayload(c, Changes(p.value, c), latestInputSeq, local)| <= SizeBound(c)
  {
    hide Trailer, EncodeCells, EncodeRows, ChangedRows;
    var rows: nat, cols: nat := c.rows, c.cols;
    assert rows * (12 * cols + 14) == 12 * (rows * cols) + 14 * rows;
    TrailerLength(c, RowIds(c));
    if p.Some? {
      RowsLength(RowsOf(p.value), RowsOf(c), cols, rows);
      assert rows * (6 + 12 * cols) == 12 * (rows * cols) + 6 * rows;
      TrailerLength(c, ChangedIds(c, Changes(p.value, c)));
    }
  }

  method CollectChangedRows(previous: RemoteFullState, current: RemoteFullState)
    returns (changed: seq<RowDelta>)
    requires SameSize(previous, current)
    ensures changed == Changes(previous, current)
  {
    hide ChangedSegment;
    changed := [];
    ghost var p, c := RowsOf(previous), RowsOf(current);
    for row := 0 to current.rows
      invariant changed == ChangedRows(p, c, current.cols, row)
    {
      var before, after := previous.Row(row), current.Row(row);
      assert p[row] == before && c[row] == after;
      if before != after {
        var segment := ChangedSegment(before, after);
        changed := changed + [RowDelta(row, segment.0, segment.1)];
      }
    }
  }

  lemma AppendRowStep(payload: seq<byte>, d: seq<RowDelta>, i: nat)
    requires i < |d|
    ensures payload + EncodeRows(d[..i]) + EncodeRow(d[i]) == payload + EncodeRows(d[..i + 1])
  {
    hide EncodeRow, EncodeRows;
    EncodeRowsAppend(d[..i], d[i]);
    assert d[..i + 1] == d[..i] + [d[i]];
    AppendEqual(payload, EncodeRows(d[..i]), EncodeRow(d[i]), EncodeRows(d[..i + 1]));
  }

  method AppendRows(payload: seq<byte>, d: seq<RowDelta>) returns (r: seq<byte>)
    ensures r == payload + EncodeRows(d)
  {
    r := payload;
    assert payload == payload + [];
    for i := 0 to |d|
      invariant r == payload + EncodeRows(d[..i])
    {
      AppendRowStep(payload, d, i);
      r := r + EncodeRow(d[i]);
    }
    assert d[..|d|] == d;
  }

  /** `encode_delta`, with its two empty-delta exits and its full-screen exit. */
  method EncodeDelta(previous: RemoteFullState, current: RemoteFullState,
                     latestInputSeq: Option<u64>, local: bool)
    returns (r: Option<seq<byte>>)
    requires previous.WellFormed() && current.WellFormed()
    ensures r == Delta(previous, current, latestInputSeq, local)
  {
    if previous.rows != current.rows || previous.cols != current.cols {
      return None;
    }
    if previous == current {
      EqualCellsHaveNoChanges(previous, current);
      return Some(EmptyDelta(current, latestInputSeq, local));
    }
    var changed := CollectChangedRows(previous, current);
    if changed == [] {
      return Some(EmptyDelta(current, latestInputSeq, local));
    }
    if |changed| == current.rows && AllFullWidth(changed, current.cols) {
      return None;
    }
    var payload := AppendRows(InputSeqPrefix(latestInputSeq, local) + DeltaHeader(current, |changed|), changed);
    return Some(payload + Trailer(current, ChangedIds(current, changed)));
  }

  function EmptyDelta(g: RemoteFullState, latestInputSeq: Option<u64>, local: bool): (s: seq<byte>)
    ensures s == DeltaPayload(g, [], latestInputSeq, local)
  {
    assert InputSeqPrefix(latestInputSeq, local) + DeltaHeader(g, 0) + EncodeRows([])
           == InputSeqPrefix(latestInputSeq, local) + DeltaHeader(g, 0);
    InputSeqPrefix(latestInputSeq, local) + DeltaHeader(g, 0) + Trailer(g, ChangedIds(g, []))
  }

  // ---- when a delta is possible ----

  predicate EndsDiffer(p: seq<RemoteCell>, c: seq<RemoteCell>)
    requires |p| == |c| > 0
  {
    p[0] != c[0] && p[|c| - 1] != c[|c| - 1]
  }

  /** Among the first `n` rows, every one differs in its first and in its last column. */
  predicate EveryRowEndsDiffer(p: CellRows, c: CellRows, cols: nat, n: nat)
    requires Aligned(p, c, cols) && cols > 0 && n <= |c|
  {
    forall r :: 0 <= r < n ==> EndsDiffer(p[r], c[r])
  }

  lemma FullWidthRow(p: CellRows, c: CellRows, cols: nat, r: nat)
    requires Aligned(p, c, cols) && r < |c| < U16_LIMIT && 0 < cols < U16_LIMIT
    ensures var x := RowChange(p, c, cols, r);
            EndsDiffer(p[r], c[r]) <==> |x| == 1 && FullWidth(x[0], cols)
  {
  }

  /** All `n` first rows were recorded, each at full width, exactly when their ends differ. */
  lemma {:induction false} FullWidthPrefix(p: CellRows, c: CellRows, cols: nat, n: nat)
    requires Aligned(p, c, cols) && n <= |c| < U16_LIMIT && 0 < cols < U16_LIMIT
    ensures |ChangedRows(p, c, cols, n)| == n && AllFullWidth(ChangedRows(p, c, cols, n), cols)
            <==> EveryRowEndsDiffer(p, c, cols, n)
  {
    hide EndsDiffer, RowChange;
    if n == 0 {
    } else {
      FullWidthPrefix(p, c, cols, n - 1);
      FullWidthRow(p, c, cols, n - 1);
      FullWidthAppend(ChangedRows(p, c, cols, n - 1), RowChange(p, c, cols, n - 1), n - 1, cols);
    }
  }

  lemma FullWidthAppend(d: seq<RowDelta>, x: seq<RowDelta>, n: nat, cols: nat)
    requires |d| <= n && |x| <= 1
    ensures |d + x| == n + 1 && AllFullWidth(d + x, cols)
            <==> |d| == n && AllFullWidth(d, cols) && |x| == 1 && FullWidth(x[0], cols)
  {
    if |d| == n && |x| == 1 {
      assert (d + x)[n] == x[0];
      assert forall i :: 0 <= i < n ==> (d + x)[i] == d[i];
    }
  }

  /** `encode_delta` gives up exactly when the sizes differ, or the grid has cells and every
      row differs in both its first and its last column. */
  lemma FallsBackExactly(p: RemoteFullState, c: RemoteFullState, latestInputSeq: Option<u64>, local: bool)
    requires p.WellFormed() && c.WellFormed()
    ensures Delta(p, c, latestInputSeq, local).None? <==>
            (p.rows != c.rows || p.cols != c.cols
             || (c.rows > 0 && c.cols > 0
                 && forall r: nat :: r < c.rows ==> EndsDiffer(p.Row(r), c.Row(r))))
  {
    hide DeltaPayload, ChangedRows, EndsDiffer;
    if p.rows == c.rows && p.cols == c.cols {
      if c.cols == 0 {
        assert p.cells == c.cells;
        EqualCellsHaveNoChanges(p, c);
      } else {
        FullWidthPrefix(RowsOf(p), RowsOf(c), c.cols, c.rows);
      }
    }
  }

  // ---- pane prefix ----

  function PanePrefix(tabId: u32, paneId: u64, paneRevision: u64, runtimeRevision: u64): (s: seq<byte>)
    ensures |s| == PANE_HEADER_LEN
  {
    LE(tabId, 4) + LE(paneId, 8) + LE(paneRevision, 8) + LE(runtimeRevision, 8)
  }

  function PanePayload(tabId: u32, paneId: u64, paneRevision: u64, runtimeRevision: u64, payload: seq<byte>)
    : seq<byte>
  {
    PanePrefix(tabId, paneId, paneRevision, runtimeRevision) + payload
  }
}
