/** The mobile client's decoders: grids with and without the input prefix, pane headers, and the row
    identities behind the cells. */
module MobileClient {
  import opened Bytes
  import opened Grid
  import opened WireEncode
  import opened WireDecode

  // ---- row identities ----

  datatype RowReplica = RowReplica(
    epoch: u64, viewportTop: u64, scrollbackTotal: u64, cursorRowId: u64, rowIds: seq<u64>)

  const REPLICA_HEADER_LEN: nat := 38

  function ParseIds(s: seq<byte>, n: nat): (ids: seq<u64>)
    requires |s| >= 8 * n
    ensures |ids| == n
  {
    if n == 0 then [] else [U64At(s, 0)] + ParseIds(s[8..], n - 1)
  }

  /** `decodeRowReplicaTrailer`, from where the cells or rows end. */
  function DecodeTrailer(s: seq<byte>): Option<RowReplica> {
    if |s| < REPLICA_HEADER_LEN || s[..4] != [0x42, 0x52, 0x52, 0x31] then None
    else
      var n := U16At(s, 36);
      if |s| < REPLICA_HEADER_LEN + 8 * n then None
      else Some(RowReplica(U64At(s, 4), U64At(s, 12), U64At(s, 20), U64At(s, 28), ParseIds(s[REPLICA_HEADER_LEN..], n)))
  }

  lemma {:induction false} IdsRoundTrip(ids: seq<u64>)
    ensures |EncodeIds(ids)| == 8 * |ids| && ParseIds(EncodeIds(ids), |ids|) == ids
  {
    hide LE, U64At;
    IdsLength(ids);
    if ids == [] {
    } else {
      var s := EncodeIds(ids);
      IdsLength(ids[1..]);
      assert s[0..8] == LE(ids[0], 8) && s[8..] == EncodeIds(ids[1..]);
      U64RoundTrip(s, 0, ids[0]);
      IdsRoundTrip(ids[1..]);
    }
  }

  /** Line `n` below the top of the viewport, counting no further than 64 bits. */
  function LineId(g: RemoteFullState, n: nat): u64 {
    if g.viewportTop + n < U64_LIMIT then g.viewportTop + n else U64_LIMIT - 1
  }

  lemma TrailerRoundTrip(g: RemoteFullState, ids: seq<u64>)
    requires |ids| < U16_LIMIT
    ensures DecodeTrailer(Trailer(g, ids))
            == Some(RowReplica(g.epoch, g.viewportTop, g.scrollbackTotal, LineId(g, g.cursorY), ids))
  {
    hide LE, U16At, U64At, EncodeIds, ParseIds;
    var s := Trailer(g, ids);
    assert ids[..|ids|] == ids;
    IdsRoundTrip(ids);
    assert s[..4] == TRAILER_MAGIC;
    assert s[4..12] == LE(g.epoch, 8);
    assert s[12..20] == LE(g.viewportTop, 8);
    assert s[20..28] == LE(g.scrollbackTotal, 8);
    assert s[28..36] == LE(LineId(g, g.cursorY), 8);
    assert s[36..38] == LE(|ids|, 2);
    assert s[38..] == EncodeIds(ids);
    U64RoundTrip(s, 4, g.epoch);
    U64RoundTrip(s, 12, g.viewportTop);
    U64RoundTrip(s, 20, g.scrollbackTotal);
    U64RoundTrip(s, 28, LineId(g, g.cursorY));
    U16RoundTrip(s, 36, |ids|);
  }

  // ---- full states ----

  /** A decoded screen: the grid, and its row identities if they came along. */
  datatype Mobile = Mobile(grid: RemoteFullState, replica: Option<RowReplica>)

  function InputPrefixLen(prefixed: bool): nat {
    if prefixed then 8 else 0
  }

  /** The header fields behind the prefix; row identities are kept apart. */
  function GridAt(s: seq<byte>, o: nat, cells: seq<RemoteCell>): RemoteFullState
    requires o + FULL_HEADER_LEN <= |s|
  {
    RemoteFullState(0, 0, 0, U16At(s, o), U16At(s, o + 2), U16At(s, o + 4), U16At(s, o + 6),
                    s[o + 8] != 0, s[o + 9] != 0, I32FromBits(U32At(s, o + 10)), cells)
  }

  function MobileCellAt(s: seq<byte>, o: nat): RemoteCell
    requires o + 12 <= |s|
  {
    RemoteCell(U32At(s, o), Rgb(s[o + 4], s[o + 5], s[o + 6]), Rgb(s[o + 7], s[o + 8], s[o + 9]), s[o + 10],
               s[o + 11] != 0)
  }

  /** The loop over cells, twelve bytes each. */
  function MobileCells(s: seq<byte>, o: nat, n: nat): (cells: seq<RemoteCell>)
    requires o + 12 * n <= |s|
    ensures |cells| == n
  {
    seq(n, i requires 0 <= i < n => MobileCellAt(s, o + 12 * i))
  }

  /** Both clients read the same cells. */
  lemma {:induction false} MobileCellsAgree(s: seq<byte>, o: nat, n: nat)
    requires o + CELL_LEN * n <= |s|
    ensures MobileCells(s, o, n) == DecodeCells(s[o..], n)
  {
    hide U32At;
    if n == 0 {
    } else {
      MobileCellsAgree(s, o, n - 1);
      DecodeCellsAppend(s[o..], n - 1);
      var at := o + CELL_LEN * (n - 1);
      assert s[o..][CELL_LEN * (n - 1)..] == s[at..];
      MobileCellAgrees(s, at);
      assert MobileCells(s, o, n) == MobileCells(s, o, n - 1) + [MobileCellAt(s, at)];
    }
  }

  lemma MobileCellAgrees(s: seq<byte>, o: nat)
    requires o + CELL_LEN <= |s|
    ensures MobileCellAt(s, o) == DecodeCell(s[o..])
  {
    assert s[o..][0..4] == s[o..o + 4];
  }

  /** `decodeFullState`: an empty grid is refused. */
  function DecodeMobileFull(s: seq<byte>, prefixed: bool): Option<Mobile> {
    var o := InputPrefixLen(prefixed);
    if |s| < o + FULL_HEADER_LEN then None
    else
      var rows, cols := U16At(s, o), U16At(s, o + 2);
      var end := o + FULL_HEADER_LEN + CELL_LEN * (rows * cols);
      if rows == 0 || cols == 0 || |s| < end then None
      else Some(Mobile(GridAt(s, o, MobileCells(s, o + FULL_HEADER_LEN, rows * cols)), DecodeTrailer(s[end..])))
  }

  lemma GridFields(g: RemoteFullState, prefix: seq<byte>, tail: seq<byte>)
    ensures var s, o := prefix + FullHeader(g) + tail, |prefix|;
            && U16At(s, o) == g.rows && U16At(s, o + 2) == g.cols
            && GridAt(s, o, g.cells) == WithoutReplicaFields(g)
  {
    hide LE, U16At, U32At;
    var s, o, h := prefix + FullHeader(g) + tail, |prefix|, FullHeader(g);
    assert s[o..o + FULL_HEADER_LEN] == h;
    assert h[0..2] == LE(g.rows, 2) && h[2..4] == LE(g.cols, 2) && h[4..6] == LE(g.cursorX, 2)
           && h[6..8] == LE(g.cursorY, 2) && h[10..14] == LE(I32Bits(g.cursorStyle), 4);
    assert s[o..o + 2] == h[0..2] && s[o + 2..o + 4] == h[2..4] && s[o + 4..o + 6] == h[4..6]
           && s[o + 6..o + 8] == h[6..8] && s[o + 10..o + 14] == h[10..14];
    U16RoundTrip(s, o, g.rows);
    U16RoundTrip(s, o + 2, g.cols);
    U16RoundTrip(s, o + 4, g.cursorX);
    U16RoundTrip(s, o + 6, g.cursorY);
    U32RoundTrip(s, o + 10, I32Bits(g.cursorStyle));
    assert s[o + 8] == FromBool(g.cursorVisible) && s[o + 9] == FromBool(g.cursorBlinking);
  }

  /** The identities of all rows of a grid: consecutive lines from the top of the viewport. */
  predicate Identifies(r: RowReplica, g: RemoteFullState) {
    && r.epoch == g.epoch && r.viewportTop == g.viewportTop && r.scrollbackTotal == g.scrollbackTotal
    && |r.rowIds| == g.rows && (forall i :: 0 <= i < g.rows ==> r.rowIds[i] == LineId(g, i))
    && r.cursorRowId == LineId(g, g.cursorY)
    && (g.cursorY < g.rows ==> r.cursorRowId == r.rowIds[g.cursorY])
  }

  lemma FullTrailer(g: RemoteFullState)
    ensures var r := DecodeTrailer(Trailer(g, RowIds(g)));
            r.Some? && Identifies(r.value, g)
  {
    hide DecodeTrailer, Trailer;
    TrailerRoundTrip(g, RowIds(g));
  }

  /** Either form of a full state, for local and for remote clients: the grid comes back whole with the
      identities of its rows, exactly unless it is empty. */
  lemma MobileFullExactly(g: RemoteFullState, latestInputSeq: Option<u64>, local: bool)
    requires g.WellFormed()
    ensures var d := DecodeMobileFull(FullPayload(g, latestInputSeq, local), local);
            if g.rows == 0 || g.cols == 0 then d == None
            else d.Some? && d.value.grid == WithoutReplicaFields(g)
                 && d.value.replica.Some? && Identifies(d.value.replica.value, g)
  {
    hide FullHeader, EncodeCells, DecodeCells, MobileCells, Trailer, DecodeTrailer, GridAt, U16At, LE;
    var prefix, tail := InputSeqPrefix(latestInputSeq, local), Trailer(g, RowIds(g));
    var body := EncodeCells(g.cells) + tail;
    var s, o := FullPayload(g, latestInputSeq, local), |prefix|;
    assert s == prefix + FullHeader(g) + body;
    GridFields(g, prefix, body);
    assert s[o + FULL_HEADER_LEN..] == body;
    CellsRoundTrip(g.cells, tail);
    MobileCellsAgree(s, o + FULL_HEADER_LEN, |g.cells|);
    assert s[o + FULL_HEADER_LEN + CELL_LEN * |g.cells|..] == tail;
    FullTrailer(g);
  }

  // ---- pane headers ----

  datatype PaneHeader = PaneHeader(tabId: u32, paneId: u64, paneRevision: u64, runtimeRevision: u64)

  function DecodePaneHeader(s: seq<byte>): PaneHeader
    requires |s| >= PANE_HEADER_LEN
  {
    PaneHeader(U32At(s, 0), U64At(s, 4), U64At(s, 12), U64At(s, 20))
  }

  /** `decodePaneFullState`: with the input prefix, or else without. */
  function DecodeMobilePane(s: seq<byte>): Option<(PaneHeader, Mobile)> {
    if |s| < PANE_HEADER_LEN then None
    else
      var body := s[PANE_HEADER_LEN..];
      var m := if DecodeMobileFull(body, true).Some? then DecodeMobileFull(body, true)
               else DecodeMobileFull(body, false);
      if m.None? then None else Some((DecodePaneHeader(s), m.value))
  }

  lemma PaneHeaderRoundTrip(tabId: u32, paneId: u64, paneRevision: u64, runtimeRevision: u64, payload: seq<byte>)
    ensures var s := PanePayload(tabId, paneId, paneRevision, runtimeRevision, payload);
            && |s| >= PANE_HEADER_LEN && s[PANE_HEADER_LEN..] == payload
            && DecodePaneHeader(s) == PaneHeader(tabId, paneId, paneRevision, runtimeRevision)
  {
    hide LE, U32At, U64At;
    var s := PanePayload(tabId, paneId, paneRevision, runtimeRevision, payload);
    PrefixSlices(LE(tabId, 4), LE(paneId, 8), LE(paneRevision, 8), LE(runtimeRevision, 8), payload);
    U32RoundTrip(s, 0, tabId);
    U64RoundTrip(s, 4, paneId);
    U64RoundTrip(s, 12, paneRevision);
    U64RoundTrip(s, 20, runtimeRevision);
  }

  lemma MobilePaneRoundTrip(h: PaneHeader, g: RemoteFullState)
    requires g.WellFormed() && g.rows > 0 && g.cols > 0
    ensures var d := DecodeMobilePane(PanePayload(h.tabId, h.paneId, h.paneRevision, h.runtimeRevision,
                                                  FullPayload(g, None, true)));
            && d.Some? && d.value.0 == h && d.value.1.grid == WithoutReplicaFields(g)
            && d.value.1.replica.Some? && Identifies(d.value.1.replica.value, g)
  {
    hide FullPayload, DecodeMobileFull, PanePayload, DecodePaneHeader;
    PaneHeaderRoundTrip(h.tabId, h.paneId, h.paneRevision, h.runtimeRevision, FullPayload(g, None, true));
    MobileFullExactly(g, None, true);
  }

  // ---- deltas ----

  /** The row at the front of `s`, and what follows it. */
  function MobileRow(s: seq<byte>): Option<(RowDelta, seq<byte>)> {
    if |s| < 6 then None
    else
      var row, startCol, count := U16At(s, 0), U16At(s, 2), U16At(s, 4);
      if |s| < 6 + 12 * count then None
      else Some((RowDelta(row, startCol, MobileCells(s, 6, count)), s[6 + 12 * count..]))
  }

  /** Both clients read the same row. */
  lemma MobileRowAgrees(s: seq<byte>)
    ensures MobileRow(s) == ParseRow(s)
  {
    hide U16At, DecodeCells, MobileCells;
    if |s| >= 6 && |s| >= 6 + 12 * U16At(s, 4) {
      MobileCellsAgree(s, 6, U16At(s, 4));
    }
  }

  /** The rows at the front of `s`, and what follows them. */
  function ParseRowsRest(s: seq<byte>, n: nat): Option<(seq<RowDelta>, seq<byte>)>
    decreases n
  {
    if n == 0 then Some(([], s))
    else
      var first := MobileRow(s);
      if first.None? then None
      else
        var rest := ParseRowsRest(first.value.1, n - 1);
        if rest.None? then None else Some(([first.value.0] + rest.value.0, rest.value.1))
  }

  lemma {:induction false} RowsRestRoundTrip(d: seq<RowDelta>, tail: seq<byte>)
    requires Encodable(d)
    ensures ParseRowsRest(EncodeRows(d) + tail, |d|) == Some((d, tail))
  {
    hide EncodeRow, ParseRow, MobileRow;
    if d == [] {
      assert EncodeRows(d) + tail == tail;
    } else {
      var rest := EncodeRows(d[1..]) + tail;
      Assoc(EncodeRow(d[0]), EncodeRows(d[1..]), tail);
      RowRoundTrip(d[0], rest);
      MobileRowAgrees(EncodeRow(d[0]) + rest);
      RowsRestRoundTrip(d[1..], tail);
      assert d == [d[0]] + d[1..];
    }
  }

  /** Cells written over a flat grid, if they lie within one of its rows; or skipped. */
  function Overlay(cells: seq<RemoteCell>, rd: RowDelta, rows: nat, cols: nat): (r: seq<RemoteCell>)
    requires |cells| == rows * cols
    ensures |r| == |cells|
  {
    if rd.row >= rows || rd.startCol >= cols || rd.startCol + |rd.cells| > cols then cells
    else
      RowBounds(rd.row, rows, cols);
      var o := rd.row * cols + rd.startCol;
      cells[..o] + rd.cells + cells[o + |rd.cells|..]
  }

  function Overlays(cells: seq<RemoteCell>, d: seq<RowDelta>, rows: nat, cols: nat): (r: seq<RemoteCell>)
    requires |cells| == rows * cols
    ensures |r| == |cells|
  {
    if d == [] then cells else Overlay(Overlays(cells, d[..|d| - 1], rows, cols), d[|d| - 1], rows, cols)
  }

  /** `applyDelta` to a screen, without its scroll, which the server never asks for. */
  function ApplyMobileDelta(s: seq<byte>, prefixed: bool, m: Mobile): Option<Mobile>
    requires m.grid.WellFormed()
  {
    var o := InputPrefixLen(prefixed);
    if |s| < o + DELTA_HEADER_LEN || s[o + 8] % 2 == 1 then None
    else
      var rows := ParseRowsRest(s[o + DELTA_HEADER_LEN..], U16At(s, o));
      if rows.None? then None
      else
        var g := m.grid.(cursorX := U16At(s, o + 2), cursorY := U16At(s, o + 4), cursorVisible := s[o + 6] != 0,
                         cursorBlinking := s[o + 7] != 0, cursorStyle := I32FromBits(U32At(s, o + 9)),
                         cells := Overlays(m.grid.cells, rows.value.0, m.grid.rows, m.grid.cols));
        Some(Mobile(g, DecodeTrailer(rows.value.1)))
  }

  /** A segment written into the row it belongs to. */
  lemma OverlayRow(pre: seq<RemoteCell>, row: seq<RemoteCell>, post: seq<RemoteCell>, rd: RowDelta, rows: nat,
                   cols: nat)
    requires rd.row < rows && |pre| == rd.row * cols && |row| == cols && |pre + row + post| == rows * cols
    requires rd.cells != [] && rd.startCol + |rd.cells| <= cols
    ensures Overlay(pre + row + post, rd, rows, cols)
            == pre + (row[..rd.startCol] + rd.cells + row[rd.startCol + |rd.cells|..]) + post
  {
    RowBounds(rd.row, rows, cols);
  }

  /** The first `n` rows of `c` above the others of `p`. */
  function Mixed(p: RemoteFullState, c: RemoteFullState, n: nat): (cells: seq<RemoteCell>)
    requires SameSize(p, c) && n <= c.rows
    ensures |cells| == c.rows * c.cols
  {
    MulMono(n, c.rows, c.cols);
    c.cells[..n * c.cols] + p.cells[n * c.cols..]
  }

  lemma MixedRow(p: RemoteFullState, c: RemoteFullState, n: nat)
    requires SameSize(p, c) && n < c.rows
    ensures |c.cells| >= (n + 1) * c.cols && 0 <= n * c.cols <= (n + 1) * c.cols
    ensures Mixed(p, c, n) == c.cells[..n * c.cols] + p.Row(n) + p.cells[(n + 1) * c.cols..]
    ensures Mixed(p, c, n + 1) == c.cells[..n * c.cols] + c.Row(n) + p.cells[(n + 1) * c.cols..]
  {
    RowBounds(n, c.rows, c.cols);
  }

  lemma SegmentFills(p: seq<RemoteCell>, c: seq<RemoteCell>)
    requires |p| == |c|
    ensures var s := ChangedSegment(p, c); p[..s.0] + s.1 + p[s.0 + |s.1|..] == c
  {
    hide ChangedSegment;
  }

  lemma {:induction false} RowsOverlaid(p: RemoteFullState, c: RemoteFullState, n: nat)
    requires SameSize(p, c) && n <= c.rows
    ensures Overlays(p.cells, ChangedRows(RowsOf(p), RowsOf(c), c.cols, n), c.rows, c.cols) == Mixed(p, c, n)
  {
    hide ChangedSegment, Overlay, Overlays, RowChange, Mixed;
    if n == 0 {
      NothingOverlaid(p, c);
    } else {
      var before := ChangedRows(RowsOf(p), RowsOf(c), c.cols, n - 1);
      var last := RowChange(RowsOf(p), RowsOf(c), c.cols, n - 1);
      RowsOverlaid(p, c, n - 1);
      OverlaysStep(p.cells, before, last, c.rows, c.cols);
      if last == [] {
        UnchangedRow(p, c, n - 1);
      } else {
        assert last == [last[0]];
        OneRowOverlaid(p, c, n - 1, last[0]);
      }
    }
  }

  lemma NothingOverlaid(p: RemoteFullState, c: RemoteFullState)
    requires SameSize(p, c)
    ensures Overlays(p.cells, [], c.rows, c.cols) == p.cells == Mixed(p, c, 0)
  {
    assert p.cells[0 * c.cols..] == p.cells;
  }

  lemma OverlaysStep(cells: seq<RemoteCell>, before: seq<RowDelta>, last: seq<RowDelta>, rows: nat, cols: nat)
    requires |cells| == rows * cols && |last| <= 1
    ensures Overlays(cells, before + last, rows, cols)
            == if last == [] then Overlays(cells, before, rows, cols)
               else Overlay(Overlays(cells, before, rows, cols), last[0], rows, cols)
  {
    hide Overlay;
    if last == [] {
      assert before + last == before;
    } else {
      assert (before + last)[..|before|] == before && (before + last)[|before|] == last[0];
    }
  }

  lemma UnchangedRow(p: RemoteFullState, c: RemoteFullState, n: nat)
    requires SameSize(p, c) && n < c.rows && RowChange(RowsOf(p), RowsOf(c), c.cols, n) == []
    ensures Mixed(p, c, n + 1) == Mixed(p, c, n)
  {
    hide ChangedSegment, Mixed;
    MixedRow(p, c, n);
  }

  lemma OneRowOverlaid(p: RemoteFullState, c: RemoteFullState, n: nat, rd: RowDelta)
    requires SameSize(p, c) && n < c.rows && [rd] == RowChange(RowsOf(p), RowsOf(c), c.cols, n)
    ensures Overlay(Mixed(p, c, n), rd, c.rows, c.cols) == Mixed(p, c, n + 1)
  {
    hide ChangedSegment, Overlay, Mixed;
    var s := ChangedSegment(p.Row(n), c.Row(n));
    assert rd == RowDelta(n, s.0, s.1);
    MixedRow(p, c, n);
    SegmentFills(p.Row(n), c.Row(n));
    OverlayRow(c.cells[..n * c.cols], p.Row(n), p.cells[(n + 1) * c.cols..], rd, c.rows, c.cols);
  }

  /** The identities of the rows a delta changes are those the full state of the same grid gives them. */
  predicate IdentifiesChanges(r: RowReplica, g: RemoteFullState, d: seq<RowDelta>) {
    && r.epoch == g.epoch && r.viewportTop == g.viewportTop && r.scrollbackTotal == g.scrollbackTotal
    && r.cursorRowId == LineId(g, g.cursorY)
    && |r.rowIds| == |d| && (forall k :: 0 <= k < |d| ==> d[k].row < g.rows && r.rowIds[k] == LineId(g, d[k].row))
  }

  lemma {:induction false} ChangedRowsInGrid(p: CellRows, c: CellRows, cols: nat, n: nat)
    requires Aligned(p, c, cols) && n <= |c| < U16_LIMIT && cols < U16_LIMIT
    ensures forall k :: 0 <= k < |ChangedRows(p, c, cols, n)| ==> ChangedRows(p, c, cols, n)[k].row < n
  {
    hide ChangedSegment;
    if n == 0 {
    } else {
      ChangedRowsInGrid(p, c, cols, n - 1);
    }
  }

  lemma DeltaFieldsAt(c: RemoteFullState, changed: nat, prefix: seq<byte>, tail: seq<byte>)
    requires changed < U16_LIMIT
    ensures var s, o := prefix + DeltaHeader(c, changed) + tail, |prefix|;
            && U16At(s, o) == changed && U16At(s, o + 2) == c.cursorX && U16At(s, o + 4) == c.cursorY
            && s[o + 6] == FromBool(c.cursorVisible) && s[o + 7] == FromBool(c.cursorBlinking) && s[o + 8] == 0
            && I32FromBits(U32At(s, o + 9)) == c.cursorStyle
  {
    hide LE, U16At, U32At;
    var s, o, h := prefix + DeltaHeader(c, changed) + tail, |prefix|, DeltaHeader(c, changed);
    assert s[o..o + DELTA_HEADER_LEN] == h;
    assert h[0..2] == LE(changed, 2) && h[2..4] == LE(c.cursorX, 2) && h[4..6] == LE(c.cursorY, 2)
           && h[9..13] == LE(I32Bits(c.cursorStyle), 4);
    assert s[o..o + 2] == h[0..2] && s[o + 2..o + 4] == h[2..4] && s[o + 4..o + 6] == h[4..6]
           && s[o + 9..o + 13] == h[9..13];
    U16RoundTrip(s, o, changed);
    U16RoundTrip(s, o + 2, c.cursorX);
    U16RoundTrip(s, o + 4, c.cursorY);
    U32RoundTrip(s, o + 9, I32Bits(c.cursorStyle));
  }

  /** A delta in either form, applied to a screen of the old grid, gives the new grid, with the
      identities of the rows it changed. */
  lemma MobileDeltaRefines(p: RemoteFullState, c: RemoteFullState, replica: Option<RowReplica>,
                           latestInputSeq: Option<u64>, local: bool)
    requires SameSize(p, c) && Delta(p, c, latestInputSeq, local).Some?
    ensures var m := ApplyMobileDelta(Delta(p, c, latestInputSeq, local).value, local,
                                      Mobile(WithoutReplicaFields(p), replica));
            && m.Some? && m.value.grid == WithoutReplicaFields(c)
            && m.value.replica.Some? && IdentifiesChanges(m.value.replica.value, c, Changes(p, c))
  {
    hide DeltaHeader, EncodeRows, Trailer, DecodeTrailer, ParseRowsRest, U16At, U32At, LE, ChangedRows, Overlays;
    var d, prefix := Changes(p, c), InputSeqPrefix(latestInputSeq, local);
    var tail := Trailer(c, ChangedIds(c, d));
    var body := EncodeRows(d) + tail;
    var s, o := DeltaPayload(c, d, latestInputSeq, local), |prefix|;
    assert s == prefix + DeltaHeader(c, |d|) + body;
    DeltaFieldsAt(c, |d|, prefix, body);
    assert s[o + DELTA_HEADER_LEN..] == body;
    ChangedRowsEncodable(RowsOf(p), RowsOf(c), c.cols, c.rows);
    RowsRestRoundTrip(d, tail);
    RowsOverlaid(p, c, c.rows);
    AllMixed(p, c);
    ChangedRowsInGrid(RowsOf(p), RowsOf(c), c.cols, c.rows);
    TrailerRoundTrip(c, ChangedIds(c, d));
  }

  lemma AllMixed(p: RemoteFullState, c: RemoteFullState)
    requires SameSize(p, c)
    ensures Mixed(p, c, c.rows) == c.cells
  {
  }
}
