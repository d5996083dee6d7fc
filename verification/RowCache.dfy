/** The rows that the mobile client keeps by identity, beside the screen of a pane. */
module RowCache {
  import opened Bytes
  import opened Grid
  import opened WireEncode
  import opened WireDecode
  import opened MobileClient

  type Rows = map<u64, seq<RemoteCell>>

  const MAX_ROWS: nat := 10_000

  datatype PaneReplica = PaneReplica(
    epoch: u64, cols: u16, scrollbackTotal: u64, viewportTop: u64, cursorRowId: u64, rows: Rows)

  predicate RowThere(m: RemoteFullState, k: nat) {
    (k + 1) * m.cols <= |m.cells|
  }

  /** The `k`-th identity that came along is given the `k`-th row of the screen, if there is one. */
  function Filed(rows: Rows, ids: seq<u64>, g: RemoteFullState, n: nat): Rows
    requires n <= |ids|
  {
    if n == 0 then rows
    else
      var before := Filed(rows, ids, g, n - 1);
      if RowThere(g, n - 1) then before[ids[n - 1] := g.cells[(n - 1) * g.cols..n * g.cols]] else before
  }

  function Larger(ids: set<u64>, id: u64): set<u64> {
    set other | other in ids && other > id
  }

  /** The largest identities, as many as are kept. */
  function Trimmed(rows: Rows): Rows {
    map id | id in rows && |Larger(rows.Keys, id)| < MAX_ROWS :: rows[id]
  }

  function Fresh(r: RowReplica, cols: u16, rows: Rows): PaneReplica {
    PaneReplica(r.epoch, cols, r.scrollbackTotal, r.viewportTop, r.cursorRowId, rows)
  }

  /** `updatePaneReplica`: another epoch or width starts over. */
  function Updated(was: Option<PaneReplica>, m: Mobile): Option<PaneReplica> {
    if m.replica.None? then was
    else
      var r := m.replica.value;
      var kept := if was.Some? && was.value.epoch == r.epoch && was.value.cols == m.grid.cols then was.value.rows
                  else map[];
      Some(Fresh(r, m.grid.cols, Trimmed(Filed(kept, r.rowIds, m.grid, |r.rowIds|))))
  }

  class Panes {
    var replicas: map<u64, PaneReplica>

    /** The loop of `updatePaneReplica` over the identities. */
    method FileRows(rows: Rows, ids: seq<u64>, g: RemoteFullState) returns (filed: Rows)
      ensures filed == Filed(rows, ids, g, |ids|)
    {
      filed := rows;
      for k := 0 to |ids|
        invariant filed == Filed(rows, ids, g, k)
      {
        var start, end := k * g.cols, k * g.cols + g.cols;
        MulStep(k, g.cols);
        if end <= |g.cells| {
          filed := filed[ids[k] := g.cells[start..end]];
        }
      }
    }

    method UpdatePaneReplica(paneId: u64, m: Mobile)
      modifies this
      ensures m.replica.None? ==> replicas == old(replicas)
      ensures m.replica.Some? ==>
        replicas == old(replicas)[paneId := Updated(Lookup(old(replicas), paneId), m).value]
    {
      if m.replica.None? {
        return;
      }
      var r := m.replica.value;
      var rows := map[];
      if paneId in replicas && replicas[paneId].epoch == r.epoch && replicas[paneId].cols == m.grid.cols {
        rows := replicas[paneId].rows;
      }
      rows := FileRows(rows, r.rowIds, m.grid);
      if |rows| > MAX_ROWS {
        rows := Trimmed(rows);
      } else {
        SmallUntrimmed(rows);
      }
      replicas := replicas[paneId := Fresh(r, m.grid.cols, rows)];
    }
  }

  function Lookup(replicas: map<u64, PaneReplica>, paneId: u64): Option<PaneReplica> {
    if paneId in replicas then Some(replicas[paneId]) else None
  }

  lemma {:induction false} SubsetSize<T>(a: set<T>, b: set<T>)
    requires a <= b
    ensures |a| <= |b|
  {
    if x :| x in a {
      SubsetSize(a - {x}, b - {x});
    }
  }

  // ---- trimming ----

  lemma SmallUntrimmed(rows: Rows)
    requires |rows| <= MAX_ROWS
    ensures Trimmed(rows) == rows
  {
    forall id | id in rows ensures |Larger(rows.Keys, id)| < MAX_ROWS {
      SubsetSize(Larger(rows.Keys, id), rows.Keys - {id});
    }
  }

  lemma {:induction false} Smallest(ids: set<u64>) returns (least: u64)
    requires ids != {}
    ensures least in ids && forall id :: id in ids ==> least <= id
  {
    var some :| some in ids;
    if ids == {some} {
      least := some;
    } else {
      assert ids == (ids - {some}) + {some};
      var rest := Smallest(ids - {some});
      least := if some < rest then some else rest;
    }
  }

  lemma {:induction false} KeptNumber(ids: set<u64>, n: nat)
    ensures |set id | id in ids && |Larger(ids, id)| < n| == Min(|ids|, n)
  {
    var kept := set id | id in ids && |Larger(ids, id)| < n;
    if ids == {} {
      assert kept == {};
    } else {
      var least := Smallest(ids);
      var rest := ids - {least};
      KeptNumber(rest, n);
      assert Larger(ids, least) == rest;
      forall id | id in rest ensures Larger(rest, id) == Larger(ids, id) {
      }
      var keptRest := set id | id in rest && |Larger(rest, id)| < n;
      assert kept == keptRest + if |rest| < n then {least} else {};
    }
  }

  /** What is kept is all there was, or the given number of rows, newer than all that were dropped. */
  lemma TrimmedExactly(rows: Rows)
    ensures |Trimmed(rows)| == Min(|rows|, MAX_ROWS)
    ensures forall id :: id in Trimmed(rows) ==> id in rows && Trimmed(rows)[id] == rows[id]
    ensures forall kept, dropped :: kept in Trimmed(rows) && dropped in rows && dropped !in Trimmed(rows) ==>
              dropped < kept
  {
    KeptNumber(rows.Keys, MAX_ROWS);
    assert Trimmed(rows).Keys == set id | id in rows.Keys && |Larger(rows.Keys, id)| < MAX_ROWS;
    forall kept, dropped | kept in Trimmed(rows) && dropped in rows && dropped !in Trimmed(rows)
      ensures dropped < kept
    {
      if kept <= dropped {
        SubsetSize(Larger(rows.Keys, dropped), Larger(rows.Keys, kept));
      }
    }
  }

  // ---- which row is filed under which identity ----

  lemma {:induction false} FiledOther(rows: Rows, ids: seq<u64>, g: RemoteFullState, n: nat, id: u64)
    requires n <= |ids| && forall j :: 0 <= j < n ==> ids[j] != id
    ensures id in Filed(rows, ids, g, n) <==> id in rows
    ensures id in rows ==> Filed(rows, ids, g, n)[id] == rows[id]
  {
    if n == 0 {
    } else {
      FiledOther(rows, ids, g, n - 1, id);
    }
  }

  lemma {:induction false} FiledAt(rows: Rows, ids: seq<u64>, g: RemoteFullState, n: nat, k: nat)
    requires g.WellFormed() && k < n <= |ids| && n <= g.rows
    requires forall j :: k < j < n ==> ids[j] != ids[k]
    ensures ids[k] in Filed(rows, ids, g, n) && Filed(rows, ids, g, n)[ids[k]] == g.Row(k)
  {
    hide RemoteFullState.Row;
    if k < n - 1 {
      FiledAt(rows, ids, g, n - 1, k);
      assert ids[n - 1] != ids[k];
    } else {
      RowFiled(g, k);
    }
  }

  lemma RowFiled(g: RemoteFullState, k: nat)
    requires g.WellFormed() && k < g.rows
    ensures RowThere(g, k) && g.Row(k) == g.cells[k * g.cols..(k + 1) * g.cols]
  {
    RowBounds(k, g.rows, g.cols);
  }

  /** Every row of the screen is cached under its own identity. */
  ghost predicate Right(rows: Rows, g: RemoteFullState)
    requires g.WellFormed()
  {
    forall i: nat :: i < g.rows ==> LineId(g, i) in rows && rows[LineId(g, i)] == g.Row(i)
  }

  lemma WithoutSameRow(g: RemoteFullState, k: nat)
    requires g.WellFormed() && k < g.rows
    ensures WithoutReplicaFields(g).WellFormed() && WithoutReplicaFields(g).Row(k) == g.Row(k)
  {
  }

  /** Of a full state every row is cached rightly, whatever was cached before, exactly unless different
      rows stand where identities have run out. */
  lemma FullFilesExactly(rows: Rows, g: RemoteFullState, latestInputSeq: Option<u64>, local: bool)
    requires g.WellFormed() && g.rows > 0 && g.cols > 0
    ensures var m := DecodeMobileFull(FullPayload(g, latestInputSeq, local), local);
            && m.Some? && m.value.replica.Some? && |m.value.replica.value.rowIds| == g.rows
            && (Right(Filed(rows, m.value.replica.value.rowIds, m.value.grid, g.rows), g)
                <==> forall i: nat :: i < g.rows && g.viewportTop + i >= U64_LIMIT - 1 ==>
                       g.Row(i) == g.Row(g.rows - 1))
  {
    hide DecodeMobileFull, FullPayload, Filed, RemoteFullState.Row, WithoutReplicaFields;
    MobileFullExactly(g, latestInputSeq, local);
    var m := DecodeMobileFull(FullPayload(g, latestInputSeq, local), local).value;
    var ids := m.replica.value.rowIds;
    forall i: nat | i < g.rows
      ensures var filed, last := Filed(rows, ids, m.grid, g.rows),
                                 if g.viewportTop + i >= U64_LIMIT - 1 then g.rows - 1 else i;
              LineId(g, i) in filed && filed[LineId(g, i)] == g.Row(last)
    {
      var last := if g.viewportTop + i >= U64_LIMIT - 1 then g.rows - 1 else i;
      WithoutSameRow(g, last);
      WithoutSize(g);
      FiledAt(rows, ids, m.grid, g.rows, last);
    }
  }

  lemma WithoutSize(g: RemoteFullState)
    ensures WithoutReplicaFields(g).rows == g.rows && WithoutReplicaFields(g).cols == g.cols
  {
  }

  // ---- a pane's replica after an update ----

  predicate SameReplica(was: Option<PaneReplica>, m: Mobile)
    requires m.replica.Some?
  {
    was.Some? && was.value.epoch == m.replica.value.epoch && was.value.cols == m.grid.cols
  }

  /** A replica is of the last update; of what it held before, only rows of the same epoch and width are
      left, unchanged, where no identity came along; and never more rows than are kept. */
  lemma UpdatedExactly(was: Option<PaneReplica>, m: Mobile)
    requires m.replica.Some?
    ensures var r, u := m.replica.value, Updated(was, m);
            && u.Some? && u.value.epoch == r.epoch && u.value.cols == m.grid.cols
            && u.value.scrollbackTotal == r.scrollbackTotal && u.value.viewportTop == r.viewportTop
            && u.value.cursorRowId == r.cursorRowId && |u.value.rows| <= MAX_ROWS
            && (forall id :: id in u.value.rows && id !in r.rowIds ==>
                  SameReplica(was, m) && id in was.value.rows && u.value.rows[id] == was.value.rows[id])
  {
    hide Filed, Trimmed;
    var r := m.replica.value;
    var kept: Rows := if SameReplica(was, m) then was.value.rows else map[];
    var filed := Filed(kept, r.rowIds, m.grid, |r.rowIds|);
    TrimmedExactly(filed);
    forall id | id in Trimmed(filed) && id !in r.rowIds ensures id in kept && Trimmed(filed)[id] == kept[id] {
      FiledOther(kept, r.rowIds, m.grid, |r.rowIds|, id);
    }
  }

  /** After a full state, whatever was cached: what is found under the identity of a row of the screen is
      that row; and it is found, if the cache had room. */
  lemma FullUpdateRight(was: Option<PaneReplica>, g: RemoteFullState, latestInputSeq: Option<u64>, local: bool, i: nat)
    requires g.WellFormed() && g.rows > 0 && g.cols > 0 && g.viewportTop + g.rows <= U64_LIMIT && i < g.rows
    ensures var m := DecodeMobileFull(FullPayload(g, latestInputSeq, local), local);
            && m.Some? && m.value.replica.Some?
            && var rows := Updated(was, m.value).value.rows;
               && (LineId(g, i) in rows ==> rows[LineId(g, i)] == g.Row(i))
               && (|rows| < MAX_ROWS ==> LineId(g, i) in rows)
  {
    hide DecodeMobileFull, FullPayload, Filed, Trimmed, RemoteFullState.Row, WithoutReplicaFields, MAX_ROWS;
    var m := DecodeMobileFull(FullPayload(g, latestInputSeq, local), local);
    MobileFullExactly(g, latestInputSeq, local);
    var r := m.value.replica.value;
    var kept: Rows := if SameReplica(was, m.value) then was.value.rows else map[];
    FullFilesExactly(kept, g, latestInputSeq, local);
    var filed := Filed(kept, r.rowIds, m.value.grid, |r.rowIds|);
    assert Right(filed, g);
    TrimmedExactly(filed);
    if |Trimmed(filed)| < MAX_ROWS && LineId(g, i) !in Trimmed(filed) {
      SubsetSize(Trimmed(filed).Keys, filed.Keys - {LineId(g, i)});
    }
  }

  // ---- which rows a delta changes ----

  /** Each row once, from the top down. */
  predicate Upwards(d: seq<RowDelta>, n: nat) {
    && (forall j, k :: 0 <= j < k < |d| ==> d[j].row < d[k].row)
    && (forall k :: 0 <= k < |d| ==> k <= d[k].row < n)
  }

  lemma UpwardsOn(d: seq<RowDelta>, last: seq<RowDelta>, n: nat)
    requires Upwards(d, n) && |d| <= n && (last == [] || (|last| == 1 && last[0].row == n))
    ensures Upwards(d + last, n + 1)
  {
  }

  lemma {:induction false} ChangedUpwards(p: CellRows, c: CellRows, cols: nat, n: nat)
    requires Aligned(p, c, cols) && n <= |c| < U16_LIMIT && cols < U16_LIMIT
    ensures Upwards(ChangedRows(p, c, cols, n), n)
  {
    hide ChangedSegment, Upwards;
    if n == 0 {
      assert Upwards([], 0) by { NoneUpwards(); }
    } else {
      ChangedUpwards(p, c, cols, n - 1);
      UpwardsOn(ChangedRows(p, c, cols, n - 1), RowChange(p, c, cols, n - 1), n - 1);
    }
  }

  lemma NoneUpwards()
    ensures Upwards([], 0)
  {
  }

  lemma OneRowMore(p: CellRows, c: CellRows, cols: nat, n: nat)
    requires Aligned(p, c, cols) && 0 < n <= |c| < U16_LIMIT && cols < U16_LIMIT
    ensures ChangedRows(p, c, cols, n) == ChangedRows(p, c, cols, n - 1) + RowChange(p, c, cols, n - 1)
  {
    hide RowChange;
  }

  lemma OneRow(p: CellRows, c: CellRows, cols: nat, r: nat)
    requires Aligned(p, c, cols) && r < |c| < U16_LIMIT && cols < U16_LIMIT && p[r] != c[r]
    ensures RowChange(p, c, cols, r) != [] && RowChange(p, c, cols, r)[0].row == r
  {
    hide ChangedSegment;
  }

  lemma {:induction false} ChangedIsListed(p: CellRows, c: CellRows, cols: nat, n: nat, r: nat)
    requires Aligned(p, c, cols) && n <= |c| < U16_LIMIT && cols < U16_LIMIT && r < n && p[r] != c[r]
    ensures exists k :: 0 <= k < |ChangedRows(p, c, cols, n)| && ChangedRows(p, c, cols, n)[k].row == r
  {
    hide ChangedRows, RowChange;
    var d, last := ChangedRows(p, c, cols, n - 1), RowChange(p, c, cols, n - 1);
    assert ChangedRows(p, c, cols, n) == d + last by { OneRowMore(p, c, cols, n); }
    if r == n - 1 {
      assert last != [] && last[0].row == r by { OneRow(p, c, cols, r); }
      assert (d + last)[|d|] == last[0];
    } else {
      ChangedIsListed(p, c, cols, n - 1, r);
      var k :| 0 <= k < |d| && d[k].row == r;
      assert (d + last)[k] == d[k];
    }
  }

  lemma WithoutFits(g: RemoteFullState)
    requires g.WellFormed()
    ensures WithoutReplicaFields(g).WellFormed()
  {
  }

  // ---- what a delta files ----

  /** The identities a delta brings are those of the changed rows; but what is filed under them are the
      first rows of the screen. */
  lemma DeltaFilesFirstRows(rows: Rows, p: RemoteFullState, c: RemoteFullState, ids: seq<u64>, k: nat)
    requires SameSize(p, c) && c.viewportTop + c.rows <= U64_LIMIT && k < |Changes(p, c)| == |ids|
    requires forall j :: 0 <= j < |ids| ==> Changes(p, c)[j].row < c.rows && ids[j] == LineId(c, Changes(p, c)[j].row)
    ensures var filed := Filed(rows, ids, WithoutReplicaFields(c), |ids|);
            k < c.rows && ids[k] in filed && filed[ids[k]] == c.Row(k)
  {
    hide Changes, RemoteFullState.Row, Filed;
    var d := Changes(p, c);
    ChangesUpwards(p, c);
    assert forall j :: k < j < |ids| ==> d[k].row < d[j].row;
    WithoutSameRow(c, k);
    FiledAt(rows, ids, WithoutReplicaFields(c), |ids|, k);
  }

  lemma ChangesUpwards(p: RemoteFullState, c: RemoteFullState)
    requires SameSize(p, c)
    ensures var d := Changes(p, c);
            && (forall j, k :: 0 <= j < k < |d| ==> d[j].row < d[k].row)
            && (forall k :: 0 <= k < |d| ==> k <= d[k].row < c.rows)
  {
    hide ChangedRows;
    ChangedUpwards(RowsOf(p), RowsOf(c), c.cols, c.rows);
  }

  lemma UnchangedRowStays(rows: Rows, p: RemoteFullState, c: RemoteFullState, ids: seq<u64>, i: nat)
    requires SameSize(p, c) && c.viewportTop + c.rows <= U64_LIMIT && p.viewportTop == c.viewportTop && Right(rows, p)
    requires i < c.rows && |Changes(p, c)| == |ids|
    requires forall j :: 0 <= j < |ids| ==> Changes(p, c)[j].row < c.rows && ids[j] == LineId(c, Changes(p, c)[j].row)
    requires forall k :: 0 <= k < |ids| ==> Changes(p, c)[k].row != i
    ensures var filed := Filed(rows, ids, WithoutReplicaFields(c), |ids|);
            LineId(c, i) in filed && filed[LineId(c, i)] == c.Row(i)
  {
    hide ChangedRows, RemoteFullState.Row, Filed;
    FiledOther(rows, ids, WithoutReplicaFields(c), |ids|, LineId(c, i));
    if RowsOf(p)[i] != RowsOf(c)[i] {
      ChangedIsListed(RowsOf(p), RowsOf(c), c.cols, c.rows, i);
    }
    assert LineId(p, i) == LineId(c, i) && rows[LineId(p, i)] == p.Row(i);
  }

  /** So a delta keeps the cache right exactly when each changed row reads like the row that stands as far
      down the screen as the change stands in the list of changes. */
  lemma DeltaFilesExactly(rows: Rows, p: RemoteFullState, c: RemoteFullState, replica: Option<RowReplica>,
                          latestInputSeq: Option<u64>, local: bool)
    requires SameSize(p, c) && Delta(p, c, latestInputSeq, local).Some?
    requires c.viewportTop + c.rows <= U64_LIMIT && p.viewportTop == c.viewportTop && Right(rows, p)
    ensures var m := ApplyMobileDelta(Delta(p, c, latestInputSeq, local).value, local,
                                      Mobile(WithoutReplicaFields(p), replica));
            var d := Changes(p, c);
            && m.Some? && m.value.replica.Some? && |m.value.replica.value.rowIds| == |d|
            && (forall k :: 0 <= k < |d| ==> k <= d[k].row < c.rows)
            && (Right(Filed(rows, m.value.replica.value.rowIds, m.value.grid, |d|), c)
                <==> forall k: nat :: k < |d| ==> c.Row(k) == c.Row(d[k].row))
  {
    hide Delta, ApplyMobileDelta, Changes, RemoteFullState.Row, Filed, WithoutReplicaFields;
    MobileDeltaRefines(p, c, replica, latestInputSeq, local);
    WithoutFits(p);
    var m := ApplyMobileDelta(Delta(p, c, latestInputSeq, local).value, local,
                              Mobile(WithoutReplicaFields(p), replica)).value;
    var d, ids := Changes(p, c), m.replica.value.rowIds;
    ChangesUpwards(p, c);
    var filed := Filed(rows, ids, m.grid, |d|);
    forall k: nat | k < |d| ensures ids[k] in filed && filed[ids[k]] == c.Row(k) {
      DeltaFilesFirstRows(rows, p, c, ids, k);
    }
    forall i: nat | i < c.rows && forall k :: 0 <= k < |d| ==> d[k].row != i
      ensures LineId(c, i) in filed && filed[LineId(c, i)] == c.Row(i)
    {
      UnchangedRowStays(rows, p, c, ids, i);
    }
    if Right(filed, c) {
      forall k: nat | k < |d| ensures c.Row(k) == c.Row(d[k].row) {
        assert ids[k] == LineId(c, d[k].row);
      }
    }
  }

  /** Two rows of one cell, of which the second changes: it is cached as the first. */
  lemma SecondRowMisfiled(top: u64, a: RemoteCell, b: RemoteCell, next: RemoteCell)
    requires top + 2 <= U64_LIMIT && a != next && b != next
    ensures var p := RemoteFullState(0, top, 0, 2, 1, 0, 0, true, false, 0, [a, b]);
            var c := p.(cells := [a, next]);
            && SameSize(p, c) && |Changes(p, c)| == 1
            && var filed := Filed(map[top := [a], top + 1 := [b]], [LineId(c, Changes(p, c)[0].row)], c, 1);
               && Right(map[top := [a], top + 1 := [b]], p)
               && top + 1 in filed && filed[top + 1] == [a] && c.Row(1) == [next]
  {
    var p := RemoteFullState(0, top, 0, 2, 1, 0, 0, true, false, 0, [a, b]);
    var c := p.(cells := [a, next]);
    assert p.Row(0) == [a] && p.Row(1) == [b] && c.Row(0) == [a] && c.Row(1) == [next];
    assert ChangedRows(RowsOf(p), RowsOf(c), 1, 0) == [];
    assert ChangedRows(RowsOf(p), RowsOf(c), 1, 1) == [];
    assert |ChangedRows(RowsOf(p), RowsOf(c), 1, 2)| == 1;
    RowFiled(c, 0);
  }
}
