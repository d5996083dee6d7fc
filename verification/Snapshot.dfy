/** The client's rendered panes: building one from a full state, patching one with a delta. */
module Snapshot {
  import opened Bytes
  import opened Grid
  import opened WireEncode
  import opened WireDecode

  datatype Theme = Theme(foreground: Rgb, background: Rgb)

  /** The compiled-in colours that patched cells are given. */
  const DEFAULT_THEME: Theme := Theme(Rgb(0xF0, 0xF0, 0xF0), Rgb(0, 0, 0))

  datatype CellSnapshot = CellSnapshot(
    text: seq<u32>, displayWidth: byte, fg: Rgb, bg: Rgb, bgIsDefault: bool,
    bold: bool, italic: bool, underline: i32, hyperlink: bool)

  const BLANK_CELL: CellSnapshot :=
    CellSnapshot([], 0, Rgb(0, 0, 0), Rgb(0, 0, 0), true, false, false, 0, false)

  datatype Cursor = Cursor(visible: bool, blinking: bool, x: u16, y: u16, style: i32)

  datatype TerminalSnapshot = TerminalSnapshot(
    cols: u16, rows: u16, cursor: Cursor,
    rowsData: seq<seq<CellSnapshot>>, rowRevisions: seq<u64>)

  predicate HasFlag(flags: byte, mask: byte)
    requires mask > 0
  {
    (flags / mask) % 2 == 1
  }

  predicate ExplicitFg(c: RemoteCell) { HasFlag(c.styleFlags, 0x20) }

  predicate ExplicitBg(c: RemoteCell) { HasFlag(c.styleFlags, 0x40) }

  /** `char::from_u32`: surrogates and values past the last code point have no text. */
  function CellText(codepoint: u32): seq<u32> {
    if codepoint == 0 || 0xD800 <= codepoint < 0xE000 || codepoint > 0x10FFFF then [] else [codepoint]
  }

  function RenderCell(c: RemoteCell, t: Theme): CellSnapshot {
    CellSnapshot(CellText(c.codepoint), if c.wide then 2 else 1,
                 if ExplicitFg(c) then c.fg else t.foreground,
                 if ExplicitBg(c) then c.bg else t.background,
                 !ExplicitBg(c),
                 HasFlag(c.styleFlags, 0x01), HasFlag(c.styleFlags, 0x02), 0, HasFlag(c.styleFlags, 0x04))
  }

  function RenderRow(row: seq<RemoteCell>, t: Theme): (r: seq<CellSnapshot>)
    ensures |r| == |row|
  {
    seq(|row|, i requires 0 <= i < |row| => RenderCell(row[i], t))
  }

  /** `slice::chunks` mapped over rows. */
  function RenderChunks(cells: seq<RemoteCell>, width: nat, t: Theme): seq<seq<CellSnapshot>>
    requires width > 0
  {
    if cells == [] then []
    else
      var n := Min(width, |cells|);
      [RenderRow(cells[..n], t)] + RenderChunks(cells[n..], width, t)
  }

  function CursorOf(g: RemoteFullState): Cursor {
    Cursor(g.cursorVisible, g.cursorBlinking, g.cursorX, g.cursorY, g.cursorStyle)
  }

  /** `remote_full_state_to_vt_snapshot`. */
  function Render(g: RemoteFullState, seed: u64, t: Theme): TerminalSnapshot {
    TerminalSnapshot(g.cols, g.rows, CursorOf(g),
                     RenderChunks(g.cells, if g.cols == 0 then 1 else g.cols, t),
                     seq(g.rows, i requires 0 <= i < g.rows => WrappingAdd(seed, i)))
  }

  // ---- patching ----

  function PadRow(row: seq<CellSnapshot>, cols: nat): (r: seq<CellSnapshot>)
    ensures |r| >= cols
    ensures |row| >= cols ==> r == row
  {
    if |row| < cols then row + seq(cols - |row|, i => BLANK_CELL) else row
  }

  /** The row after a segment has been written over it, clipped at `cols`. */
  function PatchRow(row: seq<CellSnapshot>, rd: RowDelta, cols: nat): (r: seq<CellSnapshot>)
    requires |row| >= cols && rd.startCol < cols
    ensures |r| == |row|
  {
    var n := Min(|rd.cells|, cols - rd.startCol);
    row[..rd.startCol] + RenderRow(rd.cells[..n], DEFAULT_THEME) + row[rd.startCol + n..]
  }

  datatype Rows = Rows(data: seq<seq<CellSnapshot>>, revisions: seq<u64>)

  function ApplyRow(rows: Rows, rd: RowDelta, cols: nat): (r: Rows)
    requires |rows.revisions| == |rows.data|
    ensures |r.data| == |rows.data| && |r.revisions| == |rows.revisions|
  {
    if rd.row >= |rows.data| then rows
    else
      var padded := PadRow(rows.data[rd.row], cols);
      if rd.startCol >= cols then rows.(data := rows.data[rd.row := padded])
      else Rows(rows.data[rd.row := PatchRow(padded, rd, cols)],
                rows.revisions[rd.row := WrappingAdd(rows.revisions[rd.row], 1)])
  }

  function ApplyRows(rows: Rows, d: seq<RowDelta>, cols: nat): (r: Rows)
    requires |rows.revisions| == |rows.data|
    ensures |r.data| == |rows.data| && |r.revisions| == |rows.revisions|
  {
    if d == [] then rows
    else ApplyRow(ApplyRows(rows, d[..|d| - 1], cols), d[|d| - 1], cols)
  }

  function Rotate<T>(s: seq<T>, shift: nat): (r: seq<T>)
    requires shift <= |s|
    ensures |r| == |s|
  {
    s[shift..] + s[..shift]
  }

  function BlankRow(cols: nat): seq<CellSnapshot> {
    seq(cols, i => BLANK_CELL)
  }

  /** `apply_snapshot_scroll`: rotate, then blank and restamp the rows that came round. */
  function Scroll(rows: Rows, scrollRows: i16, cols: nat): (r: Rows)
    requires |rows.revisions| == |rows.data| && scrollRows != 0
    ensures |r.data| == |rows.data| && |r.revisions| == |rows.revisions|
  {
    var n := |rows.data|;
    if scrollRows > 0 then
      var shift := Min(scrollRows, n);
      var data, revs := Rotate(rows.data, shift), Rotate(rows.revisions, shift);
      Rows(seq(n, i requires 0 <= i < n => if i >= n - shift then BlankRow(cols) else data[i]),
           seq(n, i requires 0 <= i < n => if i >= n - shift then WrappingAdd(revs[i], 1) else revs[i]))
    else
      // negating -32768 wraps, and the cast then exceeds any row count
      var shift := if scrollRows == -0x8000 then n else Min(-scrollRows, n);
      var data, revs := Rotate(rows.data, n - shift), Rotate(rows.revisions, n - shift);
      Rows(seq(n, i requires 0 <= i < n => if i < shift then BlankRow(cols) else data[i]),
           seq(n, i requires 0 <= i < n => if i < shift then WrappingAdd(revs[i], 1) else revs[i]))
  }

  /** No cell from the wire is drawn like the cell of a row that came round, which takes up no columns. */
  lemma BlankIsDistinct(c: RemoteCell, t: Theme)
    ensures RenderCell(c, t) != BLANK_CELL && RenderCell(c, t).displayWidth > BLANK_CELL.displayWidth == 0
  {
  }

  /** Whatever the theme, a cell that a delta writes without colours of its own is light grey on black. */
  lemma PatchedDefaults(row: seq<CellSnapshot>, rd: RowDelta, cols: nat, k: nat)
    requires |row| >= cols && rd.startCol < cols && k < |rd.cells| && rd.startCol + k < cols
    ensures !ExplicitFg(rd.cells[k]) ==> PatchRow(row, rd, cols)[rd.startCol + k].fg == Rgb(240, 240, 240)
    ensures !ExplicitBg(rd.cells[k]) ==> PatchRow(row, rd, cols)[rd.startCol + k].bg == Rgb(0, 0, 0)
  {
  }

  /** A row that came round: blank, under a new stamp. */
  predicate CameRound(row: seq<CellSnapshot>, stamp: u64, cols: nat, stamps: seq<u64>) {
    && |row| == cols && (forall j :: 0 <= j < cols ==> row[j] == BLANK_CELL)
    && exists k :: 0 <= k < |stamps| && stamp == WrappingAdd(stamps[k], 1)
  }

  /** What a scroll does to each row: content and stamp move together by the distance, as far as there
      are rows; the others come round. The most negative distance, which has no opposite in 16 bits,
      clears every row. */
  lemma ScrollMoves(rows: Rows, scrollRows: i16, cols: nat, i: nat)
    requires |rows.revisions| == |rows.data| && scrollRows != 0 && i < |rows.data|
    ensures var out, from := Scroll(rows, scrollRows, cols), i + scrollRows;
            if scrollRows != -0x8000 && 0 <= from < |rows.data|
            then out.data[i] == rows.data[from] && out.revisions[i] == rows.revisions[from]
            else CameRound(out.data[i], out.revisions[i], cols, rows.revisions)
  {
    hide CameRound;
    var n, out := |rows.data|, Scroll(rows, scrollRows, cols);
    var up := scrollRows > 0;
    var shift := if up then Min(scrollRows, n) else if scrollRows == -0x8000 then n else Min(-scrollRows, n);
    var k := if up then i - (n - shift) else i + (n - shift);
    if if up then i >= n - shift else i < shift {
      assert out.data[i] == BlankRow(cols);
      assert out.revisions[i] == WrappingAdd(rows.revisions[k], 1);
      RoundAgain(cols, rows.revisions, k);
    }
  }

  lemma RoundAgain(cols: nat, stamps: seq<u64>, k: nat)
    requires k < |stamps|
    ensures CameRound(BlankRow(cols), WrappingAdd(stamps[k], 1), cols, stamps)
  {
  }

  /** `Vec::resize` of the revision stamps to the number of rows. */
  function FitRevisions(revisions: seq<u64>, n: nat): (r: seq<u64>)
    ensures |r| == n
    ensures |revisions| == n ==> r == revisions
  {
    if |revisions| >= n then revisions[..n] else revisions + seq(n - |revisions|, i => 1)
  }

  function DeltaCursor(d: RemoteDelta): Cursor {
    Cursor(d.cursorVisible, d.cursorBlinking, d.cursorX, d.cursorY, d.cursorStyle)
  }

  function StartRows(s: TerminalSnapshot, d: RemoteDelta): (r: Rows)
    ensures |r.revisions| == |r.data| == |s.rowsData|
  {
    var rows := Rows(s.rowsData, FitRevisions(s.rowRevisions, |s.rowsData|));
    if d.scrollRows != 0 then Scroll(rows, d.scrollRows, s.cols) else rows
  }

  function ApplyDelta(s: TerminalSnapshot, d: RemoteDelta): TerminalSnapshot {
    var rows := ApplyRows(StartRows(s, d), d.changedRows, s.cols);
    s.(cursor := DeltaCursor(d), rowsData := rows.data, rowRevisions := rows.revisions)
  }

  /** The innermost loop of `apply_remote_delta_snapshot`: cell by cell, clipped at `cols`. */
  method WriteSegment(row: seq<CellSnapshot>, rd: RowDelta, cols: nat) returns (target: seq<CellSnapshot>)
    requires |row| >= cols && rd.startCol < cols
    ensures target == PatchRow(row, rd, cols)
  {
    target := row;
    var n := Min(|rd.cells|, cols - rd.startCol);
    for offset := 0 to n
      invariant |target| == |row|
      invariant forall j :: 0 <= j < |row| ==>
        target[j] == (if rd.startCol <= j < rd.startCol + offset
                      then RenderCell(rd.cells[j - rd.startCol], DEFAULT_THEME) else row[j])
    {
      target := target[rd.startCol + offset := RenderCell(rd.cells[offset], DEFAULT_THEME)];
    }
  }

  method PatchOneRow(rows: Rows, rd: RowDelta, cols: nat) returns (r: Rows)
    requires |rows.revisions| == |rows.data|
    ensures r == ApplyRow(rows, rd, cols)
  {
    r := rows;
    if rd.row >= |rows.data| {
      return;
    }
    var target := PadRow(rows.data[rd.row], cols);
    if rd.startCol >= cols {
      r := r.(data := rows.data[rd.row := target]);
      return;
    }
    target := WriteSegment(target, rd, cols);
    r := Rows(rows.data[rd.row := target],
              rows.revisions[rd.row := WrappingAdd(rows.revisions[rd.row], 1)]);
  }

  /** `apply_remote_delta_snapshot`: the row loop, patching rows and stamps in place. */
  method ApplyRemoteDeltaSnapshot(snapshot: TerminalSnapshot, delta: RemoteDelta)
    returns (s: TerminalSnapshot)
    ensures s == ApplyDelta(snapshot, delta)
  {
    hide StartRows, ApplyRow;
    var rows := StartRows(snapshot, delta);
    ghost var start := rows;
    var d := delta.changedRows;
    for i := 0 to |d|
      invariant |rows.revisions| == |rows.data|
      invariant rows == ApplyRows(start, d[..i], snapshot.cols)
    {
      rows := PatchOneRow(rows, d[i], snapshot.cols);
      assert d[..i + 1][..i] == d[..i];
    }
    assert d[..|d|] == d;
    s := snapshot.(cursor := DeltaCursor(delta), rowsData := rows.data, rowRevisions := rows.revisions);
  }
}
