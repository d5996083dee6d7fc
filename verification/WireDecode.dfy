/** The desktop client's payload decoders, and their round trips with the server's encoders. */
module WireDecode {
  import opened Bytes
  import opened Grid
  import opened WireEncode

  const LOCAL_FULL_HEADER_LEN: nat := LOCAL_INPUT_SEQ_LEN + FULL_HEADER_LEN
  const LOCAL_DELTA_HEADER_LEN: nat := LOCAL_INPUT_SEQ_LEN + DELTA_HEADER_LEN

  function Ack(n: u64): Option<u64> {
    if n != 0 then Some(n) else None
  }

  // ---- full state ----

  function DecodeFull(payload: seq<byte>): Option<(Option<u64>, RemoteFullState)> {
    if |payload| < LOCAL_FULL_HEADER_LEN then None
    else
      var count := U16At(payload, 8) * U16At(payload, 10);
      if |payload| < LOCAL_FULL_HEADER_LEN + count * CELL_LEN then None
      else Some((Ack(U64At(payload, 0)),
                 FullFromHeader(payload, DecodeCells(payload[LOCAL_FULL_HEADER_LEN..], count))))
  }

  function FullFromHeader(payload: seq<byte>, cells: seq<RemoteCell>): RemoteFullState
    requires |payload| >= LOCAL_FULL_HEADER_LEN
  {
    RemoteFullState(0, 0, 0, U16At(payload, 8), U16At(payload, 10), U16At(payload, 12), U16At(payload, 14),
                    payload[16] != 0, payload[17] != 0, I32FromBits(U32At(payload, 18)), cells)
  }

  /** The decoders' inner loop: `n` cells starting at `offset`. */
  method ReadCells(payload: seq<byte>, offset: nat, n: nat) returns (cells: seq<RemoteCell>)
    requires |payload| >= offset + CELL_LEN * n
    ensures cells == DecodeCells(payload[offset..], n)
  {
    cells := [];
    var at := offset;
    for i := 0 to n
      invariant at == offset + CELL_LEN * i
      invariant cells == DecodeCells(payload[offset..], i)
    {
      DecodeCellsAppend(payload[offset..], i);
      assert payload[offset..][CELL_LEN * i..] == payload[at..];
      cells := cells + [DecodeCell(payload[at..])];
      at := at + CELL_LEN;
    }
  }

  method DecodeRemoteFullState(payload: seq<byte>) returns (r: Option<(Option<u64>, RemoteFullState)>)
    ensures r == DecodeFull(payload)
  {
    if |payload| < LOCAL_FULL_HEADER_LEN {
      return None;
    }
    var count := U16At(payload, 8) * U16At(payload, 10);
    if |payload| < LOCAL_FULL_HEADER_LEN + count * CELL_LEN {
      return None;
    }
    var cells := ReadCells(payload, LOCAL_FULL_HEADER_LEN, count);
    return Some((Ack(U64At(payload, 0)), FullFromHeader(payload, cells)));
  }

  function WithoutReplicaFields(g: RemoteFullState): RemoteFullState {
    g.(epoch := 0, viewportTop := 0, scrollbackTotal := 0)
  }

  lemma FullHeaderFields(g: RemoteFullState, prefix: seq<byte>, tail: seq<byte>)
    requires |prefix| == 8
    ensures var p := prefix + FullHeader(g) + tail;
            && U64At(p, 0) == U64At(prefix, 0)
            && FullFromHeader(p, g.cells) == WithoutReplicaFields(g)
  {
    hide LE, U16At, U32At;
    var h := FullHeader(g);
    var p := prefix + h + tail;
    assert p[0..8] == prefix[0..8];
    assert p[8..10] == LE(g.rows, 2);
    assert p[10..12] == LE(g.cols, 2);
    assert p[12..14] == LE(g.cursorX, 2);
    assert p[14..16] == LE(g.cursorY, 2);
    assert p[18..22] == LE(I32Bits(g.cursorStyle), 4);
    U16RoundTrip(p, 8, g.rows);
    U16RoundTrip(p, 10, g.cols);
    U16RoundTrip(p, 12, g.cursorX);
    U16RoundTrip(p, 14, g.cursorY);
    U32RoundTrip(p, 18, I32Bits(g.cursorStyle));
    assert p[16] == FromBool(g.cursorVisible) && p[17] == FromBool(g.cursorBlinking);
  }

  /** A full state survives whatever follows its cells; only the three row-identity fields reset. */
  lemma FullRoundTripAnyTail(g: RemoteFullState, prefix: seq<byte>, tail: seq<byte>)
    requires g.WellFormed() && |prefix| == 8
    ensures DecodeFull(prefix + FullHeader(g) + EncodeCells(g.cells) + tail)
            == Some((Ack(U64At(prefix, 0)), WithoutReplicaFields(g)))
  {
    var body := EncodeCells(g.cells) + tail;
    var p := prefix + FullHeader(g) + EncodeCells(g.cells) + tail;
    Assoc(prefix + FullHeader(g), EncodeCells(g.cells), tail);
    FullHeaderFields(g, prefix, body);
    assert p[LOCAL_FULL_HEADER_LEN..] == body;
    CellsRoundTrip(g.cells, tail);
  }

  function AckOf(latestInputSeq: Option<u64>): Option<u64> {
    if latestInputSeq.Some? then Ack(latestInputSeq.value) else None
  }

  lemma InputSeqRoundTrip(latestInputSeq: Option<u64>)
    ensures Ack(U64At(InputSeqPrefix(latestInputSeq, true), 0)) == AckOf(latestInputSeq)
  {
    var p := InputSeqPrefix(latestInputSeq, true);
    assert p[0..8] == p;
    U64RoundTrip(p, 0, if latestInputSeq.Some? then latestInputSeq.value else 0);
  }

  lemma FullRoundTrip(g: RemoteFullState, latestInputSeq: Option<u64>)
    requires g.WellFormed()
    ensures DecodeFull(FullPayload(g, latestInputSeq, true))
            == Some((AckOf(latestInputSeq), WithoutReplicaFields(g)))
  {
    InputSeqRoundTrip(latestInputSeq);
    FullRoundTripAnyTail(g, InputSeqPrefix(latestInputSeq, true), Trailer(g, RowIds(g)));
  }

  // ---- delta ----

  datatype RemoteDelta = RemoteDelta(
    cursorX: u16, cursorY: u16, cursorVisible: bool, cursorBlinking: bool, cursorStyle: i32,
    scrollRows: i16, changedRows: seq<RowDelta>)

  const ROW_HEADER_LEN: nat := 6

  /** The row at the front of `s`, and what follows it. */
  function ParseRow(s: seq<byte>): Option<(RowDelta, seq<byte>)> {
    if |s| < ROW_HEADER_LEN then None
    else
      var n := U16At(s, 4);
      if |s| < ROW_HEADER_LEN + CELL_LEN * n then None
      else Some((RowDelta(U16At(s, 0), U16At(s, 2), DecodeCells(s[ROW_HEADER_LEN..], n)),
                 s[ROW_HEADER_LEN + CELL_LEN * n..]))
  }

  function Prepend(rows: seq<RowDelta>, rest: Option<seq<RowDelta>>): Option<seq<RowDelta>> {
    if rest.None? then None else Some(rows + rest.value)
  }

  lemma PrependStep(rows: seq<RowDelta>, row: RowDelta, rest: Option<seq<RowDelta>>)
    ensures Prepend(rows, Prepend([row], rest)) == Prepend(rows + [row], rest)
  {
    if rest.Some? {
      Assoc(rows, [row], rest.value);
    }
  }

  lemma PrependEnds(rest: Option<seq<RowDelta>>, rows: seq<RowDelta>)
    ensures Prepend([], rest) == rest && Prepend(rows, None) == None && Prepend(rows, Some([])) == Some(rows)
  {
    if rest.Some? {
      assert [] + rest.value == rest.value;
    }
    assert rows + [] == rows;
  }

  function ParseRows(s: seq<byte>, n: nat): Option<seq<RowDelta>>
    decreases n
  {
    if n == 0 then Some([])
    else
      var first := ParseRow(s);
      if first.None? then None else Prepend([first.value.0], ParseRows(first.value.1, n - 1))
  }

  lemma ParseRowsDone(s: seq<byte>)
    ensures ParseRows(s, 0) == Some([])
  {
  }

  lemma ParseRowsStop(s: seq<byte>, n: nat)
    requires n > 0 && ParseRow(s).None?
    ensures ParseRows(s, n).None?
  {
  }

  lemma ParseRowsStep(s: seq<byte>, n: nat, row: RowDelta, rest: seq<byte>)
    requires n > 0 && ParseRow(s) == Some((row, rest))
    ensures ParseRows(s, n) == Prepend([row], ParseRows(rest, n - 1))
  {
  }

  function DecodeDelta(payload: seq<byte>): Option<(Option<u64>, RemoteDelta)> {
    if |payload| < LOCAL_DELTA_HEADER_LEN then None
    else
      var scrolls := payload[16] % 2 == 1;
      if scrolls && |payload| < LOCAL_DELTA_HEADER_LEN + 2 then None
      else
        var offset := if scrolls then LOCAL_DELTA_HEADER_LEN + 2 else LOCAL_DELTA_HEADER_LEN;
        var rows := ParseRows(payload[offset..], U16At(payload, 8));
        if rows.None? then None
        else Some((Ack(U64At(payload, 0)), DeltaFromHeader(payload, rows.value)))
  }

  function DeltaFromHeader(payload: seq<byte>, rows: seq<RowDelta>): RemoteDelta
    requires |payload| >= LOCAL_DELTA_HEADER_LEN
    requires payload[16] % 2 == 1 ==> |payload| >= LOCAL_DELTA_HEADER_LEN + 2
  {
    RemoteDelta(U16At(payload, 10), U16At(payload, 12), payload[14] != 0, payload[15] != 0,
                I32FromBits(U32At(payload, 17)),
                if payload[16] % 2 == 1 then I16FromBits(U16At(payload, 21)) else 0, rows)
  }

  /** One turn of the decoder's row loop, with its two length checks. */
  method ReadRow(payload: seq<byte>, at: nat) returns (r: Option<RowDelta>, next: nat)
    requires at <= |payload|
    ensures at <= next <= |payload|
    ensures ParseRow(payload[at..]) == if r.None? then None else Some((r.value, payload[next..]))
  {
    var s := payload[at..];
    if at + ROW_HEADER_LEN > |payload| {
      return None, at;
    }
    var count := U16At(s, 4);
    if at + ROW_HEADER_LEN + CELL_LEN * count > |payload| {
      return None, at;
    }
    var cells := ReadCells(payload, at + ROW_HEADER_LEN, count);
    assert payload[at + ROW_HEADER_LEN..] == s[ROW_HEADER_LEN..];
    next := at + ROW_HEADER_LEN + CELL_LEN * count;
    assert payload[next..] == s[ROW_HEADER_LEN + CELL_LEN * count..];
    return Some(RowDelta(U16At(s, 0), U16At(s, 2), cells)), next;
  }

  method ReadRows(payload: seq<byte>, offset: nat, n: nat) returns (r: Option<seq<RowDelta>>)
    requires offset <= |payload|
    ensures r == ParseRows(payload[offset..], n)
  {
    hide ParseRow, ParseRows, Prepend;
    var rows: seq<RowDelta> := [];
    var at := offset;
    ghost var whole := ParseRows(payload[offset..], n);
    PrependEnds(whole, []);
    for i := 0 to n
      invariant offset <= at <= |payload|
      invariant whole == Prepend(rows, ParseRows(payload[at..], n - i))
    {
      var row, next := ReadRow(payload, at);
      if row.None? {
        ParseRowsStop(payload[at..], n - i);
        PrependEnds(None, rows);
        return None;
      }
      ParseRowsStep(payload[at..], n - i, row.value, payload[next..]);
      PrependStep(rows, row.value, ParseRows(payload[next..], n - i - 1));
      rows, at := rows + [row.value], next;
    }
    ParseRowsDone(payload[at..]);
    PrependEnds(None, rows);
    return Some(rows);
  }

  method DecodeRemoteDelta(payload: seq<byte>) returns (r: Option<(Option<u64>, RemoteDelta)>)
    ensures r == DecodeDelta(payload)
  {
    if |payload| < LOCAL_DELTA_HEADER_LEN {
      return None;
    }
    var offset := LOCAL_DELTA_HEADER_LEN;
    if payload[16] % 2 == 1 {
      if offset + 2 > |payload| {
        return None;
      }
      offset := offset + 2;
    }
    var rows := ReadRows(payload, offset, U16At(payload, 8));
    if rows.None? {
      return None;
    }
    return Some((Ack(U64At(payload, 0)), DeltaFromHeader(payload, rows.value)));
  }

  predicate Encodable(d: seq<RowDelta>) {
    |d| < U16_LIMIT && forall i :: 0 <= i < |d| ==> |d[i].cells| < U16_LIMIT
  }

  lemma RowRoundTrip(rd: RowDelta, tail: seq<byte>)
    requires |rd.cells| < U16_LIMIT
    ensures ParseRow(EncodeRow(rd) + tail) == Some((rd, tail))
  {
    hide LE, EncodeCells, DecodeCells, U16At;
    var s := EncodeRow(rd) + tail;
    assert s[0..2] == LE(rd.row, 2);
    assert s[2..4] == LE(rd.startCol, 2);
    assert s[4..6] == LE(|rd.cells|, 2);
    U16RoundTrip(s, 0, rd.row);
    U16RoundTrip(s, 2, rd.startCol);
    U16RoundTrip(s, 4, |rd.cells|);
    assert s[ROW_HEADER_LEN..] == EncodeCells(rd.cells) + tail;
    CellsRoundTrip(rd.cells, tail);
    assert s[ROW_HEADER_LEN + CELL_LEN * |rd.cells|..] == tail;
  }

  lemma {:induction false} RowsRoundTrip(d: seq<RowDelta>, tail: seq<byte>)
    requires Encodable(d)
    ensures ParseRows(EncodeRows(d) + tail, |d|) == Some(d)
  {
    hide EncodeRow, ParseRow;
    if d == [] {
    } else {
      Assoc(EncodeRow(d[0]), EncodeRows(d[1..]), tail);
      RowRoundTrip(d[0], EncodeRows(d[1..]) + tail);
      ParseRowsStep(EncodeRow(d[0]) + (EncodeRows(d[1..]) + tail), |d|, d[0], EncodeRows(d[1..]) + tail);
      RowsRoundTrip(d[1..], tail);
      assert d == [d[0]] + d[1..];
    }
  }

  /** What the client makes of a delta: never a scroll. */
  function DeltaOf(c: RemoteFullState, d: seq<RowDelta>): RemoteDelta {
    RemoteDelta(c.cursorX, c.cursorY, c.cursorVisible, c.cursorBlinking, c.cursorStyle, 0, d)
  }

  lemma DeltaHeaderFields(c: RemoteFullState, d: seq<RowDelta>, prefix: seq<byte>, tail: seq<byte>)
    requires |prefix| == 8 && |d| < U16_LIMIT
    ensures var p := prefix + DeltaHeader(c, |d|) + tail;
            && U64At(p, 0) == U64At(prefix, 0)
            && U16At(p, 8) == |d|
            && p[16] == 0
            && DeltaFromHeader(p, d) == DeltaOf(c, d)
  {
    hide LE, U16At, U32At;
    var p := prefix + DeltaHeader(c, |d|) + tail;
    assert p[0..8] == prefix[0..8];
    assert p[8..10] == LE(|d|, 2);
    assert p[10..12] == LE(c.cursorX, 2);
    assert p[12..14] == LE(c.cursorY, 2);
    assert p[17..21] == LE(I32Bits(c.cursorStyle), 4);
    U16RoundTrip(p, 8, |d|);
    U16RoundTrip(p, 10, c.cursorX);
    U16RoundTrip(p, 12, c.cursorY);
    U32RoundTrip(p, 17, I32Bits(c.cursorStyle));
    assert p[14] == FromBool(c.cursorVisible) && p[15] == FromBool(c.cursorBlinking);
  }

  lemma DeltaRoundTrip(c: RemoteFullState, d: seq<RowDelta>, latestInputSeq: Option<u64>)
    requires Encodable(d)
    ensures DecodeDelta(DeltaPayload(c, d, latestInputSeq, true))
            == Some((AckOf(latestInputSeq), DeltaOf(c, d)))
  {
    var prefix := InputSeqPrefix(latestInputSeq, true);
    var tail := Trailer(c, ChangedIds(c, d));
    Assoc(prefix + DeltaHeader(c, |d|), EncodeRows(d), tail);
    var body := EncodeRows(d) + tail;
    var p := prefix + DeltaHeader(c, |d|) + body;
    InputSeqRoundTrip(latestInputSeq);
    DeltaHeaderFields(c, d, prefix, body);
    assert p[LOCAL_DELTA_HEADER_LEN..] == body;
    RowsRoundTrip(d, tail);
  }

  // ---- pane prefix ----

  function DecodePaneFull(payload: seq<byte>): Option<(u64, u64, RemoteFullState)> {
    if |payload| < PANE_HEADER_LEN then None
    else
      var state := DecodeFull(payload[PANE_HEADER_LEN..]);
      if state.None? then None else Some((U64At(payload, 4), U64At(payload, 20), state.value.1))
  }

  function DecodePaneDelta(payload: seq<byte>): Option<(u64, u64, RemoteDelta)> {
    if |payload| < PANE_HEADER_LEN then None
    else
      var delta := DecodeDelta(payload[PANE_HEADER_LEN..]);
      if delta.None? then None else Some((U64At(payload, 4), U64At(payload, 20), delta.value.1))
  }

  lemma PrefixSlices(a: seq<byte>, b: seq<byte>, c: seq<byte>, d: seq<byte>, tail: seq<byte>)
    requires |a| == 4 && |b| == |c| == |d| == 8
    ensures var p := a + b + c + d + tail;
            p[4..12] == b && p[20..28] == d && p[28..] == tail
  {
  }

  lemma PanePrefixFields(tabId: u32, paneId: u64, paneRevision: u64, runtimeRevision: u64, payload: seq<byte>)
    ensures var p := PanePayload(tabId, paneId, paneRevision, runtimeRevision, payload);
            && |p| >= PANE_HEADER_LEN
            && U64At(p, 4) == paneId && U64At(p, 20) == runtimeRevision
            && p[PANE_HEADER_LEN..] == payload
  {
    hide LE, U64At;
    var p := PanePayload(tabId, paneId, paneRevision, runtimeRevision, payload);
    PrefixSlices(LE(tabId, 4), LE(paneId, 8), LE(paneRevision, 8), LE(runtimeRevision, 8), payload);
    U64RoundTrip(p, 4, paneId);
    U64RoundTrip(p, 20, runtimeRevision);
  }

  /** Decoding a pane full state gives back the pane id, the runtime revision and the grid. */
  lemma PaneFullRoundTrip(tabId: u32, paneId: u64, paneRevision: u64, runtimeRevision: u64, g: RemoteFullState)
    requires g.WellFormed()
    ensures DecodePaneFull(PanePayload(tabId, paneId, paneRevision, runtimeRevision, FullPayload(g, None, true)))
            == Some((paneId, runtimeRevision, WithoutReplicaFields(g)))
  {
    PanePrefixFields(tabId, paneId, paneRevision, runtimeRevision, FullPayload(g, None, true));
    FullRoundTrip(g, None);
  }

  lemma PaneDeltaRoundTrip(tabId: u32, paneId: u64, paneRevision: u64, runtimeRevision: u64,
                           c: RemoteFullState, d: seq<RowDelta>)
    requires Encodable(d)
    ensures DecodePaneDelta(PanePayload(tabId, paneId, paneRevision, runtimeRevision, DeltaPayload(c, d, None, true)))
            == Some((paneId, runtimeRevision, DeltaOf(c, d)))
  {
    PanePrefixFields(tabId, paneId, paneRevision, runtimeRevision, DeltaPayload(c, d, None, true));
    DeltaRoundTrip(c, d, None);
  }

  /** Whatever `encode_delta` records fits the 16-bit counts. */
  lemma {:induction false} ChangedRowsEncodable(p: CellRows, c: CellRows, cols: nat, n: nat)
    requires Aligned(p, c, cols) && n <= |c| < U16_LIMIT && cols < U16_LIMIT
    ensures Encodable(ChangedRows(p, c, cols, n))
  {
    if n == 0 {
    } else {
      ChangedRowsEncodable(p, c, cols, n - 1);
    }
  }

  /** Two's complement of 16 bits. */
  function I16Bits(x: i16): u16 {
    if x < 0 then x + U16_LIMIT else x
  }

  /** A delta that asks for a scroll, as the format has it: flag byte 1, then the distance, then the rows. */
  function ScrolledPayload(c: RemoteFullState, d: seq<RowDelta>, scrollRows: i16, latestInputSeq: Option<u64>)
    : seq<byte>
  {
    var h := DeltaHeader(c, |d|);
    InputSeqPrefix(latestInputSeq, true) + (h[..8] + [1] + h[9..]) + LE(I16Bits(scrollRows), 2) + EncodeRows(d)
  }

  lemma ScrolledHeader(c: RemoteFullState, changed: nat)
    ensures var h := DeltaHeader(c, changed);
            var h' := h[..8] + [1] + h[9..];
            && |h'| == DELTA_HEADER_LEN && h'[8] == 1
            && h'[0..2] == LE(changed, 2) && h'[2..4] == LE(c.cursorX, 2) && h'[4..6] == LE(c.cursorY, 2)
            && h'[6] == FromBool(c.cursorVisible) && h'[7] == FromBool(c.cursorBlinking)
            && h'[9..13] == LE(I32Bits(c.cursorStyle), 4)
  {
    hide LE;
    var h := DeltaHeader(c, changed);
    var h' := h[..8] + [1] + h[9..];
    assert h'[0..2] == h[0..2] && h'[2..4] == h[2..4] && h'[4..6] == h[4..6] && h'[9..13] == h[9..13];
  }

  /** Where the parts of a scrolling delta stand. */
  lemma ScrolledSlices(prefix: seq<byte>, h: seq<byte>, distance: seq<byte>, rows: seq<byte>)
    requires |prefix| == 8 && |h| == DELTA_HEADER_LEN && |distance| == 2
    ensures var p := prefix + h + distance + rows;
            && |p| == LOCAL_DELTA_HEADER_LEN + 2 + |rows| && p[LOCAL_DELTA_HEADER_LEN + 2..] == rows
            && p[0..8] == prefix && p[8..10] == h[0..2] && p[10..12] == h[2..4] && p[12..14] == h[4..6]
            && p[14] == h[6] && p[15] == h[7] && p[16] == h[8] && p[17..21] == h[9..13] && p[21..23] == distance
  {
  }

  lemma ScrolledFields(c: RemoteFullState, d: seq<RowDelta>, scrollRows: i16, latestInputSeq: Option<u64>)
    requires |d| < U16_LIMIT
    ensures var p := ScrolledPayload(c, d, scrollRows, latestInputSeq);
            && |p| == LOCAL_DELTA_HEADER_LEN + 2 + |EncodeRows(d)| && p[LOCAL_DELTA_HEADER_LEN + 2..] == EncodeRows(d)
            && Ack(U64At(p, 0)) == AckOf(latestInputSeq) && U16At(p, 8) == |d| && p[16] == 1
            && DeltaFromHeader(p, d) == DeltaOf(c, d).(scrollRows := scrollRows)
  {
    hide LE, U16At, U32At, U64At, EncodeRows, Ack, DeltaHeader, InputSeqPrefix;
    var prefix, h := InputSeqPrefix(latestInputSeq, true), DeltaHeader(c, |d|);
    var p := ScrolledPayload(c, d, scrollRows, latestInputSeq);
    ScrolledHeader(c, |d|);
    ScrolledSlices(prefix, h[..8] + [1] + h[9..], LE(I16Bits(scrollRows), 2), EncodeRows(d));
    SameU64(p, prefix);
    InputSeqRoundTrip(latestInputSeq);
    U16RoundTrip(p, 8, |d|);
    U16RoundTrip(p, 10, c.cursorX);
    U16RoundTrip(p, 12, c.cursorY);
    U32RoundTrip(p, 17, I32Bits(c.cursorStyle));
    U16RoundTrip(p, 21, I16Bits(scrollRows));
  }

  lemma SameU64(s: seq<byte>, t: seq<byte>)
    requires |s| >= 8 && |t| >= 8 && s[0..8] == t[0..8]
    ensures U64At(s, 0) == U64At(t, 0)
  {
  }

  /** The client reads a scroll, though the server never asks for one. */
  lemma ScrolledDecodes(c: RemoteFullState, d: seq<RowDelta>, scrollRows: i16, latestInputSeq: Option<u64>)
    requires Encodable(d)
    ensures DecodeDelta(ScrolledPayload(c, d, scrollRows, latestInputSeq))
            == Some((AckOf(latestInputSeq), DeltaOf(c, d).(scrollRows := scrollRows)))
  {
    hide ScrolledPayload, DeltaFromHeader, EncodeRows, U16At, U64At, Ack, ParseRows;
    ScrolledFields(c, d, scrollRows, latestInputSeq);
    RowsRoundTrip(d, []);
    assert EncodeRows(d) + [] == EncodeRows(d);
  }
}
