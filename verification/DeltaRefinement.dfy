/** A delta, decoded and applied, does what sending the whole grid would have done. */
module DeltaRefinement {
  import opened Bytes
  import opened Grid
  import opened WireEncode
  import opened WireDecode
  import opened Snapshot

  // ---- what it means for a snapshot to show a grid ----

  /** `s` shows `c`, its unstated colours taken from one of `themes`. */
  ghost predicate ShowsCell(s: CellSnapshot, c: RemoteCell, themes: iset<Theme>) {
    exists t :: t in themes && s == RenderCell(c, t)
  }

  ghost predicate ShowsRow(row: seq<CellSnapshot>, cells: seq<RemoteCell>, themes: iset<Theme>) {
    |row| == |cells| && forall j :: 0 <= j < |row| ==> ShowsCell(row[j], cells[j], themes)
  }

  /** A grid without columns is drawn without rows. */
  function VisibleRows(g: RemoteFullState): nat {
    if g.cols == 0 then 0 else g.rows
  }

  ghost predicate Sized(s: TerminalSnapshot, g: RemoteFullState) {
    && s.cols == g.cols && s.rows == g.rows && |s.rowsData| == VisibleRows(g)
    && forall r :: 0 <= r < |s.rowsData| ==> |s.rowsData[r]| == g.cols
  }

  ghost predicate Shows(s: TerminalSnapshot, g: RemoteFullState, themes: iset<Theme>)
    requires g.WellFormed()
  {
    && Sized(s, g)
    && s.cursor == CursorOf(g)
    && forall r :: 0 <= r < |s.rowsData| ==> ShowsRow(s.rowsData[r], g.Row(r), themes)
  }

  // ---- rendering a full state ----

  lemma {:induction false} ChunkCount(cells: seq<RemoteCell>, rows: nat, cols: nat, t: Theme)
    requires cols > 0 && |cells| == rows * cols
    ensures |RenderChunks(cells, cols, t)| == rows
  {
    if rows == 0 {
    } else {
      MulStep(rows - 1, cols);
      ChunkCount(cells[cols..], rows - 1, cols, t);
    }
  }

  lemma {:induction false} ChunkRow(cells: seq<RemoteCell>, rows: nat, cols: nat, t: Theme, r: nat)
    requires cols > 0 && |cells| == rows * cols && r < rows
    ensures |RenderChunks(cells, cols, t)| == rows
    ensures 0 <= r * cols <= (r + 1) * cols <= |cells|
    ensures RenderChunks(cells, cols, t)[r] == RenderRow(cells[r * cols..(r + 1) * cols], t)
  {
    ChunkCount(cells, rows, cols, t);
    RowBounds(r, rows, cols);
    RowBounds(0, rows, cols);
    if r > 0 {
      MulStep(rows - 1, cols);
      MulStep(r - 1, cols);
      ChunkRow(cells[cols..], rows - 1, cols, t, r - 1);
      assert cells[r * cols..(r + 1) * cols] == cells[cols..][(r - 1) * cols..r * cols];
    } else {
      assert cells[0 * cols..(0 + 1) * cols] == cells[..cols];
    }
  }

  lemma RenderedRow(g: RemoteFullState, seed: u64, t: Theme, r: nat)
    requires g.WellFormed() && r < VisibleRows(g)
    ensures |Render(g, seed, t).rowsData| == VisibleRows(g)
    ensures Render(g, seed, t).rowsData[r] == RenderRow(g.Row(r), t)
  {
    ChunkRow(g.cells, g.rows, g.cols, t, r);
  }

  lemma RenderRows(g: RemoteFullState, seed: u64, t: Theme)
    requires g.WellFormed()
    ensures Sized(Render(g, seed, t), g)
    ensures forall r: nat :: r < VisibleRows(g) ==> Render(g, seed, t).rowsData[r] == RenderRow(g.Row(r), t)
  {
    var s := Render(g, seed, t);
    assert |s.rowsData| == VisibleRows(g) by {
      if g.cols > 0 { ChunkCount(g.cells, g.rows, g.cols, t); }
    }
    forall r: nat | r < VisibleRows(g) ensures s.rowsData[r] == RenderRow(g.Row(r), t) {
      RenderedRow(g, seed, t, r);
    }
  }

  /** A full state, as the client decodes it, is shown. */
  lemma FullStateShows(g: RemoteFullState, seed: u64, t: Theme, themes: iset<Theme>)
    requires g.WellFormed() && t in themes
    ensures Shows(Render(WithoutReplicaFields(g), seed, t), g, themes)
  {
    var v := WithoutReplicaFields(g);
    var s := Render(v, seed, t);
    RenderRows(v, seed, t);
    forall r | 0 <= r < |s.rowsData| ensures ShowsRow(s.rowsData[r], g.Row(r), themes) {
      assert v.Row(r) == g.Row(r);
      forall j | 0 <= j < g.cols ensures ShowsCell(s.rowsData[r][j], g.Row(r)[j], themes) {
        assert s.rowsData[r][j] == RenderCell(g.Row(r)[j], t);
      }
    }
  }

  // ---- applying a delta ----

  /** What the delta from `p` to `c` does to row `r`. */
  function PatchedRow(row: seq<CellSnapshot>, p: CellRows, c: CellRows, cols: nat, r: nat)
    : seq<CellSnapshot>
    requires Aligned(p, c, cols) && r < |c| < U16_LIMIT && |row| == cols < U16_LIMIT
  {
    var d := RowChange(p, c, cols, r);
    if d == [] then row else PatchRow(row, d[0], cols)
  }

  /** One recorded row, or none, applied to rows of the right width. */
  lemma ApplyRowAt(rows: Rows, p: CellRows, c: CellRows, cols: nat, k: nat, r: nat)
    requires Aligned(p, c, cols) && k < |c| && r < |c| < U16_LIMIT && cols < U16_LIMIT
    requires |rows.data| == |rows.revisions| == |c| && (r == k ==> |rows.data[r]| == cols)
    ensures var x := RowChange(p, c, cols, k);
            (if x == [] then rows else ApplyRow(rows, x[0], cols)).data[r]
            == if r == k then PatchedRow(rows.data[r], p, c, cols, r) else rows.data[r]
  {
  }

  lemma ApplyChangedStep(rows: Rows, p: CellRows, c: CellRows, cols: nat, n: nat)
    requires Aligned(p, c, cols) && 0 < n <= |c| < U16_LIMIT && cols < U16_LIMIT
    requires |rows.data| == |rows.revisions|
    ensures var x, before := RowChange(p, c, cols, n - 1), ApplyRows(rows, ChangedRows(p, c, cols, n - 1), cols);
            ApplyRows(rows, ChangedRows(p, c, cols, n), cols)
            == if x == [] then before else ApplyRow(before, x[0], cols)
  {
    var d', x := ChangedRows(p, c, cols, n - 1), RowChange(p, c, cols, n - 1);
    if x == [] {
      assert d' + x == d';
    } else {
      assert (d' + x)[..|d'|] == d' && (d' + x)[|d'|] == x[0];
    }
  }

  lemma ApplyChangedStepAt(rows: Rows, before: Rows, p: CellRows, c: CellRows, cols: nat, n: nat, r: nat)
    requires Aligned(p, c, cols) && 0 < n <= |c| < U16_LIMIT && cols < U16_LIMIT
    requires |rows.data| == |rows.revisions| == |before.data| == |before.revisions| == |c|
    requires before == ApplyRows(rows, ChangedRows(p, c, cols, n - 1), cols)
    requires r < |c| && (r == n - 1 ==> |before.data[r]| == cols)
    ensures ApplyRows(rows, ChangedRows(p, c, cols, n), cols).data[r]
            == if r == n - 1 then PatchedRow(before.data[r], p, c, cols, r) else before.data[r]
  {
    hide PatchedRow, ApplyRow, ApplyRows, ChangedRows, RowChange;
    var x := RowChange(p, c, cols, n - 1);
    var after := if x == [] then before else ApplyRow(before, x[0], cols);
    assert ApplyRows(rows, ChangedRows(p, c, cols, n), cols) == after by {
      ApplyChangedStep(rows, p, c, cols, n);
    }
    assert after.data[r] == if r == n - 1 then PatchedRow(before.data[r], p, c, cols, r) else before.data[r] by {
      ApplyRowAt(before, p, c, cols, n - 1, r);
    }
  }

  lemma {:induction false} ApplyChangedRow(rows: Rows, p: CellRows, c: CellRows, cols: nat, n: nat, r: nat)
    requires Aligned(p, c, cols) && n <= |c| < U16_LIMIT && cols < U16_LIMIT
    requires |rows.data| == |rows.revisions| == |c| && r < |c| && |rows.data[r]| == cols
    ensures ApplyRows(rows, ChangedRows(p, c, cols, n), cols).data[r]
            == if r < n then PatchedRow(rows.data[r], p, c, cols, r) else rows.data[r]
  {
    hide PatchedRow, ApplyRow, RowChange;
    if n == 0 {
    } else {
      ApplyChangedRow(rows, p, c, cols, n - 1, r);
      ApplyChangedStepAt(rows, ApplyRows(rows, ChangedRows(p, c, cols, n - 1), cols), p, c, cols, n, r);
    }
  }

  /** Column `j` of row `r` lies in the segment the delta writes. */
  predicate InSegment(p: RemoteFullState, c: RemoteFullState, r: nat, j: nat)
    requires SameSize(p, c) && r < c.rows
  {
    var s := ChangedSegment(p.Row(r), c.Row(r));
    s.0 <= j < s.0 + |s.1|
  }

  /** What the delta from `p` to `c` makes of a screen row. */
  function Patched(row: seq<CellSnapshot>, p: RemoteFullState, c: RemoteFullState, r: nat): (out: seq<CellSnapshot>)
    requires SameSize(p, c) && r < c.rows && |row| == c.cols
    ensures |out| == c.cols
  {
    SameSizeAligned(p, c);
    PatchedRow(row, RowsOf(p), RowsOf(c), c.cols, r)
  }

  lemma PatchedCell(row: seq<CellSnapshot>, p: RemoteFullState, c: RemoteFullState, r: nat, j: nat)
    requires SameSize(p, c) && r < c.rows && |row| == c.cols && j < c.cols
    ensures Patched(row, p, c, r)[j]
            == if InSegment(p, c, r, j) then RenderCell(c.Row(r)[j], DEFAULT_THEME) else row[j]
  {
    hide ChangedSegment, RenderCell;
    var s := ChangedSegment(p.Row(r), c.Row(r));
    if p.Row(r) != c.Row(r) {
      assert s.1[..|s.1|] == s.1;
    }
  }

  /** The cells the delta leaves alone already show `c`. */
  ghost predicate ShowsOutside(s: TerminalSnapshot, p: RemoteFullState, c: RemoteFullState, themes: iset<Theme>)
    requires SameSize(p, c) && Sized(s, c)
  {
    forall r: nat, j: nat :: r < |s.rowsData| && j < c.cols && !InSegment(p, c, r, j) ==>
      ShowsCell(s.rowsData[r][j], c.Row(r)[j], themes)
  }

  function DeltaBetween(p: RemoteFullState, c: RemoteFullState): RemoteDelta
    requires SameSize(p, c)
  {
    DeltaOf(c, Changes(p, c))
  }

  /** Row by row, what a delta leaves on the screen. */
  lemma ApplyDeltaRows(s: TerminalSnapshot, p: RemoteFullState, c: RemoteFullState)
    requires SameSize(p, c) && Sized(s, c)
    ensures var out := ApplyDelta(s, DeltaBetween(p, c));
            && Sized(out, c)
            && forall r :: 0 <= r < |s.rowsData| ==> out.rowsData[r] == Patched(s.rowsData[r], p, c, r)
  {
    if c.cols == 0 {
      assert p.cells == c.cells;
      EqualCellsHaveNoChanges(p, c);
    } else {
      var out, start := ApplyDelta(s, DeltaBetween(p, c)), StartRows(s, DeltaBetween(p, c));
      forall r | 0 <= r < |s.rowsData|
        ensures out.rowsData[r] == Patched(s.rowsData[r], p, c, r) && |out.rowsData[r]| == c.cols
      {
        ApplyChangedRow(start, RowsOf(p), RowsOf(c), c.cols, c.rows, r);
      }
    }
  }

  /** Segment soundness: a snapshot that already shows `c` outside the changed segments shows
      all of `c` afterwards, whatever the segments held before. */
  lemma DeltaRepairs(s: TerminalSnapshot, p: RemoteFullState, c: RemoteFullState, themes: iset<Theme>)
    requires SameSize(p, c) && Sized(s, c) && DEFAULT_THEME in themes
    requires ShowsOutside(s, p, c, themes)
    ensures Shows(ApplyDelta(s, DeltaBetween(p, c)), c, themes)
  {
    var out := ApplyDelta(s, DeltaBetween(p, c));
    ApplyDeltaRows(s, p, c);
    forall r | 0 <= r < |out.rowsData| ensures ShowsRow(out.rowsData[r], c.Row(r), themes) {
      forall j | 0 <= j < c.cols ensures ShowsCell(out.rowsData[r][j], c.Row(r)[j], themes) {
        PatchedCell(s.rowsData[r], p, c, r, j);
      }
    }
  }

  /** A snapshot of the previous grid, or of the current one, qualifies for `DeltaRepairs`. */
  lemma ShownGridsQualify(s: TerminalSnapshot, g: RemoteFullState, p: RemoteFullState, c: RemoteFullState,
                          themes: iset<Theme>)
    requires SameSize(p, c) && (g == p || g == c) && Shows(s, g, themes)
    ensures Sized(s, c) && ShowsOutside(s, p, c, themes)
  {
    forall r: nat, j: nat | r < |s.rowsData| && j < c.cols && !InSegment(p, c, r, j)
      ensures ShowsCell(s.rowsData[r][j], c.Row(r)[j], themes)
    {
      assert ShowsRow(s.rowsData[r], g.Row(r), themes);
      assert p.Row(r)[j] == c.Row(r)[j];
    }
  }

  /** Delta refines full state: bytes produced against `p` and applied to a snapshot of `p`
      decode, and leave a snapshot of `c`. */
  lemma DeltaRefinesFull(s: TerminalSnapshot, p: RemoteFullState, c: RemoteFullState,
                         latestInputSeq: Option<u64>, themes: iset<Theme>)
    requires p.WellFormed() && c.WellFormed() && Shows(s, p, themes) && DEFAULT_THEME in themes
    requires Delta(p, c, latestInputSeq, true).Some?
    ensures DecodeDelta(Delta(p, c, latestInputSeq, true).value)
            == Some((AckOf(latestInputSeq), DeltaBetween(p, c)))
    ensures Shows(ApplyDelta(s, DeltaBetween(p, c)), c, themes)
  {
    ChangedRowsEncodable(RowsOf(p), RowsOf(c), c.cols, c.rows);
    DeltaRoundTrip(c, Changes(p, c), latestInputSeq);
    ShownGridsQualify(s, p, p, c, themes);
    DeltaRepairs(s, p, c, themes);
  }

  // ---- exact colours ----

  /** With one theme there is nothing left open: the cells are those of a fresh rendering. */
  lemma OneThemeIsExact(s: TerminalSnapshot, g: RemoteFullState, seed: u64, t: Theme)
    requires g.WellFormed() && Shows(s, g, iset{t})
    ensures s.rowsData == Render(g, seed, t).rowsData
  {
    RenderRows(g, seed, t);
    forall r | 0 <= r < |s.rowsData| ensures s.rowsData[r] == Render(g, seed, t).rowsData[r] {
      assert ShowsRow(s.rowsData[r], g.Row(r), iset{t});
      assert s.rowsData[r] == RenderRow(g.Row(r), t);
    }
  }

  /** Theme `t` leaves `c` looking the same as the compiled-in defaults do. */
  predicate ColourStated(c: RemoteCell, t: Theme) {
    && (ExplicitFg(c) || t.foreground == DEFAULT_THEME.foreground)
    && (ExplicitBg(c) || t.background == DEFAULT_THEME.background)
  }

  /** Every cell the delta writes states its colours wherever `t` departs from the defaults. */
  predicate ColoursStated(p: RemoteFullState, c: RemoteFullState, t: Theme)
    requires SameSize(p, c)
  {
    forall r: nat, j: nat :: r < c.rows && j < c.cols && InSegment(p, c, r, j) ==>
      ColourStated(c.Row(r)[j], t)
  }

  /** Under a configured theme `t` the delta path gives the full path's cells exactly when the
      cells it writes state their colours: patched cells are coloured with the defaults. */
  lemma ThemeExactness(p: RemoteFullState, c: RemoteFullState, seed: u64, seed': u64, t: Theme)
    requires SameSize(p, c)
    ensures ApplyDelta(Render(p, seed, t), DeltaBetween(p, c)).rowsData == Render(c, seed', t).rowsData
            <==> ColoursStated(p, c, t)
  {
    var s := Render(p, seed, t);
    var out, redrawn := ApplyDelta(s, DeltaBetween(p, c)).rowsData, Render(c, seed', t).rowsData;
    RenderRows(p, seed, t);
    RenderRows(c, seed', t);
    ApplyDeltaRows(s, p, c);
    forall r: nat | r < |redrawn|
      ensures out[r] == redrawn[r] <==>
              forall j: nat :: j < c.cols && InSegment(p, c, r, j) ==> ColourStated(c.Row(r)[j], t)
    {
      ThemedRow(p, c, r, t);
    }
    if c.cols > 0 && out == redrawn {
      assert forall r: nat :: r < c.rows ==> out[r] == redrawn[r];
    }
  }

  lemma ThemedRow(p: RemoteFullState, c: RemoteFullState, r: nat, t: Theme)
    requires SameSize(p, c) && r < c.rows
    ensures Patched(RenderRow(p.Row(r), t), p, c, r) == RenderRow(c.Row(r), t)
            <==> forall j: nat :: j < c.cols && InSegment(p, c, r, j) ==> ColourStated(c.Row(r)[j], t)
  {
    var old', out, redrawn := RenderRow(p.Row(r), t), Patched(RenderRow(p.Row(r), t), p, c, r), RenderRow(c.Row(r), t);
    if c.cols > 0 {
      PatchedCell(old', p, c, r, 0);
    }
    forall j: nat | j < c.cols
      ensures out[j] == redrawn[j] <==> (InSegment(p, c, r, j) ==> ColourStated(c.Row(r)[j], t))
    {
      PatchedCell(old', p, c, r, j);
      if !InSegment(p, c, r, j) {
        assert p.Row(r)[j] == c.Row(r)[j];
      }
    }
    if out == redrawn {
      assert forall j :: 0 <= j < c.cols ==> out[j] == redrawn[j];
    }
  }
}
