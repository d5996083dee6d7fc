/** Terminal cells and grids, and their fixed-width encodings. */
module Grid {
  import opened Bytes

  datatype Rgb = Rgb(r: byte, g: byte, b: byte)

  datatype RemoteCell = RemoteCell(codepoint: u32, fg: Rgb, bg: Rgb, styleFlags: byte, wide: bool)

  datatype RemoteFullState = RemoteFullState(
    epoch: u64, viewportTop: u64, scrollbackTotal: u64,
    rows: u16, cols: u16,
    cursorX: u16, cursorY: u16, cursorVisible: bool, cursorBlinking: bool, cursorStyle: i32,
    cells: seq<RemoteCell>)
  {
    /** What the encoders index by; a grid of any other size makes them panic. */
    predicate WellFormed() {
      |cells| == rows * cols
    }

    function Row(r: nat): (row: seq<RemoteCell>)
      requires WellFormed() && r < rows
      ensures |row| == cols
    {
      RowBounds(r, rows, cols);
      cells[r * cols..(r + 1) * cols]
    }
  }

  lemma RowBounds(r: nat, rows: nat, cols: nat)
    requires r < rows
    ensures 0 <= r * cols <= (r + 1) * cols <= rows * cols
    ensures (r + 1) * cols - r * cols == cols
  {
    MulMono(r + 1, rows, cols);
    MulStep(r, cols);
  }

  lemma MulStep(a: int, c: int)
    ensures (a + 1) * c == a * c + c
  {
  }

  lemma {:induction false} MulMono(a: nat, b: nat, c: nat)
    requires a <= b
    ensures a * c <= b * c
    decreases b - a
  {
    if a == b {
    } else {
      MulMono(a, b - 1, c);
      MulStep(b - 1, c);
    }
  }

  /** Two well-formed grids of one size are equal exactly when their rows are. */
  lemma RowsDetermineCells(a: RemoteFullState, b: RemoteFullState)
    requires a.WellFormed() && b.WellFormed() && a.rows == b.rows && a.cols == b.cols
    requires forall r: nat :: r < a.rows ==> a.Row(r) == b.Row(r)
    ensures a.cells == b.cells
  {
    forall k | 0 <= k < |a.cells| ensures a.cells[k] == b.cells[k] {
      var r, c := CellPosition(k, a.rows, a.cols);
      RowBounds(r, a.rows, a.cols);
      assert a.Row(r)[c] == b.Row(r)[c];
    }
  }

  lemma CellPosition(k: nat, rows: nat, cols: nat) returns (r: nat, c: nat)
    requires k < rows * cols
    ensures r < rows && c < cols && k == r * cols + c
  {
    r, c := k / cols, k % cols;
    assert k == cols * r + c;
    if r >= rows {
      MulMono(rows, r, cols);
      assert false;
    }
  }

  const CELL_LEN: nat := 12

  function EncodeCell(c: RemoteCell): (s: seq<byte>)
    ensures |s| == CELL_LEN
  {
    LE(c.codepoint, 4)
    + [c.fg.r, c.fg.g, c.fg.b, c.bg.r, c.bg.g, c.bg.b, c.styleFlags, FromBool(c.wide)]
  }

  function DecodeCell(s: seq<byte>): RemoteCell
    requires |s| >= CELL_LEN
  {
    RemoteCell(U32At(s, 0), Rgb(s[4], s[5], s[6]), Rgb(s[7], s[8], s[9]), s[10], s[11] != 0)
  }

  lemma CellRoundTrip(c: RemoteCell, tail: seq<byte>)
    ensures DecodeCell(EncodeCell(c) + tail) == c
  {
    var s := EncodeCell(c) + tail;
    assert s[0..4] == LE(c.codepoint, 4);
    U32RoundTrip(s, 0, c.codepoint);
  }

  function EncodeCells(cells: seq<RemoteCell>): (s: seq<byte>)
    ensures |s| == CELL_LEN * |cells|
  {
    if cells == [] then [] else EncodeCell(cells[0]) + EncodeCells(cells[1..])
  }

  function DecodeCells(s: seq<byte>, n: nat): (cells: seq<RemoteCell>)
    requires |s| >= CELL_LEN * n
    ensures |cells| == n
  {
    if n == 0 then [] else [DecodeCell(s)] + DecodeCells(s[CELL_LEN..], n - 1)
  }

  lemma {:induction false} CellsRoundTrip(cells: seq<RemoteCell>, tail: seq<byte>)
    ensures DecodeCells(EncodeCells(cells) + tail, |cells|) == cells
  {
    hide EncodeCell, DecodeCell;
    if cells == [] {
    } else {
      var rest := EncodeCells(cells[1..]) + tail;
      assert EncodeCells(cells) + tail == EncodeCell(cells[0]) + rest;
      CellRoundTrip(cells[0], rest);
      assert (EncodeCell(cells[0]) + rest)[CELL_LEN..] == rest;
      CellsRoundTrip(cells[1..], tail);
    }
  }

  lemma {:induction false} EncodeCellsAppend(cells: seq<RemoteCell>, c: RemoteCell)
    ensures EncodeCells(cells + [c]) == EncodeCells(cells) + EncodeCell(c)
  {
    hide EncodeCell;
    if cells == [] {
      assert cells + [c] == [c];
      assert EncodeCells([c]) == EncodeCell(c) + EncodeCells([]);
    } else {
      assert (cells + [c])[1..] == cells[1..] + [c];
      EncodeCellsAppend(cells[1..], c);
    }
  }

  lemma {:induction false} DecodeCellsAppend(s: seq<byte>, n: nat)
    requires |s| >= CELL_LEN * (n + 1)
    ensures DecodeCells(s, n + 1) == DecodeCells(s, n) + [DecodeCell(s[CELL_LEN * n..])]
  {
    hide DecodeCell;
    if n > 0 {
      DecodeCellsAppend(s[CELL_LEN..], n - 1);
      assert s[CELL_LEN..][CELL_LEN * (n - 1)..] == s[CELL_LEN * n..];
    } else {
      assert DecodeCells(s[CELL_LEN..], 0) == [];
      assert s[0..] == s;
    }
  }
}
