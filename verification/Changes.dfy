/** Sequences of changes to a screen: when two of them come to the same on every screen. */
module Changes {
  import opened Bytes
  import opened WireEncode
  import opened WireDecode
  import opened Snapshot

  // ---- screens and changes ----

  /** A screen, once there is one; its revision stamps are not part of the picture. */
  type Screen = Option<TerminalSnapshot>

  function Picture(s: TerminalSnapshot): TerminalSnapshot {
    s.(rowRevisions := [])
  }

  /** As many rows as drawn, all of them as wide as the screen. */
  ghost predicate Proper(s: Screen) {
    s.Some? ==>
      && |s.value.rowsData| == (if s.value.cols == 0 then 0 else s.value.rows)
      && forall r :: 0 <= r < |s.value.rowsData| ==> |s.value.rowsData[r]| == s.value.cols
  }

  /** A bare picture, without stamps. */
  predicate Unstamped(s: Screen) {
    s.Some? ==> s.value.rowRevisions == []
  }

  datatype Change = Draw(picture: TerminalSnapshot) | Drop | Amend(delta: RemoteDelta) | Keep

  /** Pictures are whole and bare, and deltas do not scroll. */
  ghost predicate Orderly(c: Change) {
    && (c.Draw? ==> Proper(Some(c.picture)) && Unstamped(Some(c.picture)))
    && (c.Amend? ==> c.delta.scrollRows == 0)
  }

  ghost predicate AllOrderly(cs: seq<Change>) {
    forall i :: 0 <= i < |cs| ==> Orderly(cs[i])
  }

  function Make(s: Screen, c: Change): Screen {
    match c
    case Draw(picture) => Some(picture)
    case Drop => None
    case Amend(delta) => if s.None? then None else Some(Picture(ApplyDelta(s.value, delta)))
    case Keep => s
  }

  function MakeAll(s: Screen, cs: seq<Change>): Screen {
    if cs == [] then s else Make(MakeAll(s, cs[..|cs| - 1]), cs[|cs| - 1])
  }

  // ---- which cells a delta writes ----

  predicate Writes(rd: RowDelta, r: nat, j: nat) {
    rd.row == r && rd.startCol <= j < rd.startCol + |rd.cells|
  }

  /** The cell that the last row delta to touch (r, j) leaves there. */
  function Written(d: seq<RowDelta>, r: nat, j: nat): Option<CellSnapshot> {
    if d == [] then None
    else
      var last := d[|d| - 1];
      if Writes(last, r, j) then Some(RenderCell(last.cells[j - last.startCol], DEFAULT_THEME))
      else Written(d[..|d| - 1], r, j)
  }

  predicate RowsProper(rows: Rows, cols: nat) {
    |rows.revisions| == |rows.data| && forall r :: 0 <= r < |rows.data| ==> |rows.data[r]| == cols
  }

  lemma ApplyRowCells(rows: Rows, rd: RowDelta, cols: nat)
    requires RowsProper(rows, cols)
    ensures RowsProper(ApplyRow(rows, rd, cols), cols)
    ensures forall r, j :: 0 <= r < |rows.data| && 0 <= j < cols ==>
      ApplyRow(rows, rd, cols).data[r][j]
      == if Writes(rd, r, j) then RenderCell(rd.cells[j - rd.startCol], DEFAULT_THEME) else rows.data[r][j]
  {
    hide RenderCell;
  }

  lemma {:induction false} ApplyRowsCells(rows: Rows, d: seq<RowDelta>, cols: nat)
    requires RowsProper(rows, cols)
    ensures RowsProper(ApplyRows(rows, d, cols), cols)
    ensures forall r, j :: 0 <= r < |rows.data| && 0 <= j < cols ==>
      ApplyRows(rows, d, cols).data[r][j]
      == if Written(d, r, j).Some? then Written(d, r, j).value else rows.data[r][j]
  {
    hide RenderCell, ApplyRow;
    if d == [] {
    } else {
      ApplyRowsCells(rows, d[..|d| - 1], cols);
      ApplyRowCells(ApplyRows(rows, d[..|d| - 1], cols), d[|d| - 1], cols);
    }
  }

  /** A patched picture, cell by cell. */
  lemma PatchCells(s: TerminalSnapshot, d: RemoteDelta)
    requires Proper(Some(s)) && d.scrollRows == 0
    ensures Proper(Some(ApplyDelta(s, d)))
    ensures var out := ApplyDelta(s, d);
            && out.cols == s.cols && out.rows == s.rows && out.cursor == DeltaCursor(d)
            && |out.rowsData| == |s.rowsData|
            && forall r, j :: 0 <= r < |s.rowsData| && 0 <= j < s.cols ==>
                 out.rowsData[r][j]
                 == if Written(d.changedRows, r, j).Some? then Written(d.changedRows, r, j).value else s.rowsData[r][j]
  {
    hide ApplyRows, Written;
    ApplyRowsCells(StartRows(s, d), d.changedRows, s.cols);
  }

  function Filled(rows: u16, cols: u16, cell: CellSnapshot, cursor: Cursor): (s: TerminalSnapshot)
    ensures Proper(Some(s)) && Unstamped(Some(s))
  {
    TerminalSnapshot(cols, rows, cursor, seq(if cols == 0 then 0 else rows, i => seq(cols, j => cell)), [])
  }

  /** A cell that no rendering is: it claims to be nine columns wide. */
  const ODD_CELL: CellSnapshot := BLANK_CELL.(displayWidth := 9)

  lemma {:induction false} WrittenIsRendered(d: seq<RowDelta>, r: nat, j: nat)
    requires Written(d, r, j).Some?
    ensures Written(d, r, j).value != ODD_CELL
  {
    if !Writes(d[|d| - 1], r, j) {
      WrittenIsRendered(d[..|d| - 1], r, j);
    }
  }

  // ---- what a sequence comes to ----

  /** Some change forgets the screen. */
  predicate Resets(cs: seq<Change>) {
    exists i :: 0 <= i < |cs| && (cs[i].Draw? || cs[i].Drop?)
  }

  /** The cursor of the last delta. */
  function LastCursor(cs: seq<Change>): Option<Cursor> {
    if cs == [] then None
    else if cs[|cs| - 1].Amend? then Some(DeltaCursor(cs[|cs| - 1].delta))
    else LastCursor(cs[..|cs| - 1])
  }

  /** What the last delta to write cell (r, j) leaves there. */
  function LastWritten(cs: seq<Change>, r: nat, j: nat): Option<CellSnapshot> {
    if cs == [] then None
    else
      var c := cs[|cs| - 1];
      if c.Amend? && Written(c.delta.changedRows, r, j).Some? then Written(c.delta.changedRows, r, j)
      else LastWritten(cs[..|cs| - 1], r, j)
  }

  /** Two sequences come to the same: both forget the screen and make the same of nothing, or neither
      does and they leave the same cursor and the same cells. */
  ghost predicate SameOutcome(a: seq<Change>, b: seq<Change>) {
    if Resets(a) || Resets(b) then Resets(a) && Resets(b) && MakeAll(None, a) == MakeAll(None, b)
    else
      && LastCursor(a) == LastCursor(b)
      && forall r: nat, j: nat :: r < U16_LIMIT - 1 && j < U16_LIMIT - 1 ==>
           LastWritten(a, r, j) == LastWritten(b, r, j)
  }

  /** No bare picture tells the two apart. */
  ghost predicate Alike(a: seq<Change>, b: seq<Change>) {
    forall s: Screen :: Proper(s) && Unstamped(s) ==> MakeAll(s, a) == MakeAll(s, b)
  }

  lemma PrefixDoesNotReset(cs: seq<Change>)
    requires cs != [] && !Resets(cs)
    ensures !Resets(cs[..|cs| - 1]) && (cs[|cs| - 1].Amend? || cs[|cs| - 1].Keep?)
  {
    assert forall i :: 0 <= i < |cs| - 1 ==> cs[..|cs| - 1][i] == cs[i];
  }

  /** What forgets the screen makes everything before it forgotten. */
  lemma {:induction false} ResetForgets(s: Screen, cs: seq<Change>)
    requires Resets(cs)
    ensures MakeAll(s, cs) == MakeAll(None, cs)
  {
    hide ApplyDelta;
    if cs[|cs| - 1].Draw? || cs[|cs| - 1].Drop? {
    } else {
      var i :| 0 <= i < |cs| && (cs[i].Draw? || cs[i].Drop?);
      assert cs[..|cs| - 1][i] == cs[i];
      ResetForgets(s, cs[..|cs| - 1]);
    }
  }

  lemma {:induction false} NothingToAmend(cs: seq<Change>)
    requires !Resets(cs)
    ensures MakeAll(None, cs) == None
  {
    if cs == [] {
    } else {
      PrefixDoesNotReset(cs);
      NothingToAmend(cs[..|cs| - 1]);
    }
  }

  lemma MakeProper(s: Screen, c: Change)
    requires Proper(s) && Orderly(c)
    ensures Proper(Make(s, c))
  {
    hide ApplyDelta;
    if c.Amend? && s.Some? {
      PatchCells(s.value, c.delta);
    }
  }

  /** What remains of a screen after deltas: size, cursor, cells. */
  ghost predicate AmendedBy(s: TerminalSnapshot, out: TerminalSnapshot, cs: seq<Change>) {
    && Proper(Some(s)) && Proper(Some(out))
    && out.cols == s.cols && out.rows == s.rows && |out.rowsData| == |s.rowsData|
    && out.cursor == (if LastCursor(cs).Some? then LastCursor(cs).value else s.cursor)
    && out.rowRevisions == (if LastCursor(cs).Some? then [] else s.rowRevisions)
    && forall r, j :: 0 <= r < |s.rowsData| && 0 <= j < s.cols ==>
         out.rowsData[r][j] == if LastWritten(cs, r, j).Some? then LastWritten(cs, r, j).value else s.rowsData[r][j]
  }

  lemma {:induction false} DeltasAmend(s: TerminalSnapshot, cs: seq<Change>)
    requires Proper(Some(s)) && !Resets(cs) && AllOrderly(cs)
    ensures MakeAll(Some(s), cs).Some? && AmendedBy(s, MakeAll(Some(s), cs).value, cs)
  {
    if cs == [] {
    } else {
      hide AmendedBy, Proper, Orderly;
      PrefixDoesNotReset(cs);
      DeltasAmend(s, cs[..|cs| - 1]);
      assert Orderly(cs[|cs| - 1]);
      AmendOne(s, MakeAll(Some(s), cs[..|cs| - 1]).value, cs);
    }
  }

  lemma AmendOne(s: TerminalSnapshot, mid: TerminalSnapshot, cs: seq<Change>)
    requires cs != [] && (cs[|cs| - 1].Amend? || cs[|cs| - 1].Keep?) && Orderly(cs[|cs| - 1])
    requires Proper(Some(s)) && AmendedBy(s, mid, cs[..|cs| - 1])
    ensures var made := Make(Some(mid), cs[|cs| - 1]);
            made.Some? && AmendedBy(s, made.value, cs)
  {
    hide ApplyDelta, Written;
    if cs[|cs| - 1].Amend? {
      PatchCells(mid, cs[|cs| - 1].delta);
    }
  }

  lemma SameAmendments(s: TerminalSnapshot, a: seq<Change>, b: seq<Change>)
    requires Proper(Some(s)) && !Resets(a) && !Resets(b) && AllOrderly(a) && AllOrderly(b) && SameOutcome(a, b)
    ensures MakeAll(Some(s), a) == MakeAll(Some(s), b)
  {
    hide LastWritten, LastCursor, MakeAll, Resets, AllOrderly;
    DeltasAmend(s, a);
    DeltasAmend(s, b);
    var x, y := MakeAll(Some(s), a).value, MakeAll(Some(s), b).value;
    forall r | 0 <= r < |s.rowsData| ensures x.rowsData[r] == y.rowsData[r] {
      forall j | 0 <= j < s.cols ensures x.rowsData[r][j] == y.rowsData[r][j] {
        assert LastWritten(a, r, j) == LastWritten(b, r, j);
      }
    }
    assert x.rowsData == y.rowsData;
  }

  lemma {:induction false} LastWrittenIsRendered(cs: seq<Change>, r: nat, j: nat)
    requires LastWritten(cs, r, j).Some?
    ensures LastWritten(cs, r, j).value != ODD_CELL
  {
    var c := cs[|cs| - 1];
    if c.Amend? && Written(c.delta.changedRows, r, j).Some? {
      WrittenIsRendered(c.delta.changedRows, r, j);
    } else {
      LastWrittenIsRendered(cs[..|cs| - 1], r, j);
    }
  }

  /** What is written to a cell can be read off one screen that shows nothing like it. */
  lemma OddCellTells(cs: seq<Change>, r: nat, j: nat, cursor: Cursor)
    requires !Resets(cs) && AllOrderly(cs) && r < U16_LIMIT - 1 && j < U16_LIMIT - 1
    ensures var made := MakeAll(Some(Filled(r + 1, j + 1, ODD_CELL, cursor)), cs);
            && made.Some? && |made.value.rowsData| == r + 1 && |made.value.rowsData[r]| == j + 1
            && made.value.cols == j + 1
            && made.value.rowsData[r][j]
               == (if LastWritten(cs, r, j).Some? then LastWritten(cs, r, j).value else ODD_CELL)
            && made.value.cursor == (if LastCursor(cs).Some? then LastCursor(cs).value else cursor)
  {
    hide LastWritten, LastCursor, MakeAll, Resets, AllOrderly;
    var s := Filled(r + 1, j + 1, ODD_CELL, cursor);
    DeltasAmend(s, cs);
    assert s.rowsData[r][j] == ODD_CELL;
  }

  lemma SameCellsWritten(a: seq<Change>, b: seq<Change>, r: nat, j: nat)
    requires !Resets(a) && !Resets(b) && AllOrderly(a) && AllOrderly(b) && Alike(a, b)
    requires r < U16_LIMIT - 1 && j < U16_LIMIT - 1
    ensures LastWritten(a, r, j) == LastWritten(b, r, j)
  {
    hide LastWritten, LastCursor, MakeAll, Resets, AllOrderly, Proper;
    var cursor := Cursor(false, false, 0, 0, 0);
    var s: Screen := Some(Filled(r + 1, j + 1, ODD_CELL, cursor));
    assert Proper(s) && Unstamped(s);
    assert MakeAll(s, a) == MakeAll(s, b);
    OddCellTells(a, r, j, cursor);
    OddCellTells(b, r, j, cursor);
    if LastWritten(a, r, j).Some? { LastWrittenIsRendered(a, r, j); }
    if LastWritten(b, r, j).Some? { LastWrittenIsRendered(b, r, j); }
  }

  function OtherCursor(a: Option<Cursor>, b: Option<Cursor>): (c: Cursor)
    ensures a != b ==> (if a.Some? then a.value else c) != (if b.Some? then b.value else c)
  {
    var c := if a.Some? then a.value else if b.Some? then b.value else Cursor(false, false, 0, 0, 0);
    c.(visible := !c.visible)
  }

  lemma SameCursorLeft(a: seq<Change>, b: seq<Change>)
    requires !Resets(a) && !Resets(b) && AllOrderly(a) && AllOrderly(b) && Alike(a, b)
    ensures LastCursor(a) == LastCursor(b)
  {
    hide LastWritten, LastCursor, MakeAll, Resets, AllOrderly, Proper;
    var cursor := OtherCursor(LastCursor(a), LastCursor(b));
    var s: Screen := Some(Filled(0 + 1, 0 + 1, ODD_CELL, cursor));
    assert Proper(s) && Unstamped(s);
    assert MakeAll(s, a) == MakeAll(s, b);
    OddCellTells(a, 0, 0, cursor);
    OddCellTells(b, 0, 0, cursor);
  }

  /** Forgetting the screen makes one of all screens; deltas keep their sizes apart. */
  lemma ResetIsSeen(a: seq<Change>, b: seq<Change>)
    requires Resets(a) && !Resets(b) && AllOrderly(b)
    ensures !Alike(a, b) && !Alike(b, a)
  {
    hide LastWritten, LastCursor, MakeAll, Resets, AllOrderly, Proper;
    var cursor := Cursor(false, false, 0, 0, 0);
    var s: Screen := Some(Filled(0 + 1, 0 + 1, ODD_CELL, cursor));
    var wider: Screen := Some(Filled(0 + 1, 1 + 1, ODD_CELL, cursor));
    assert Proper(s) && Unstamped(s) && Proper(wider) && Unstamped(wider);
    ResetForgets(s, a);
    ResetForgets(wider, a);
    OddCellTells(b, 0, 0, cursor);
    OddCellTells(b, 0, 1, cursor);
    assert MakeAll(s, b) != MakeAll(wider, b);
  }

  lemma OutcomeSuffices(s: Screen, a: seq<Change>, b: seq<Change>)
    requires Proper(s) && AllOrderly(a) && AllOrderly(b) && SameOutcome(a, b)
    ensures MakeAll(s, a) == MakeAll(s, b)
  {
    hide LastWritten, LastCursor, MakeAll, AllOrderly, Resets, Proper;
    if Resets(a) {
      ResetForgets(s, a);
      ResetForgets(s, b);
    } else if s.None? {
      NothingToAmend(a);
      NothingToAmend(b);
    } else {
      SameAmendments(s.value, a, b);
    }
  }

  lemma OutcomeNecessary(a: seq<Change>, b: seq<Change>)
    requires AllOrderly(a) && AllOrderly(b) && Alike(a, b)
    ensures SameOutcome(a, b)
  {
    hide LastWritten, LastCursor, MakeAll, AllOrderly, Resets;
    assert Proper(None) && Unstamped(None);
    assert MakeAll(None, a) == MakeAll(None, b);
    if Resets(a) != Resets(b) {
      if Resets(a) { ResetIsSeen(a, b); } else { ResetIsSeen(b, a); }
    } else if !Resets(a) {
      SameCursorLeft(a, b);
      forall r: nat, j: nat | r < U16_LIMIT - 1 && j < U16_LIMIT - 1
        ensures LastWritten(a, r, j) == LastWritten(b, r, j)
      {
        SameCellsWritten(a, b, r, j);
      }
    }
  }

  /** Two sequences of changes make the same of every screen exactly when they come to the same,
      which takes no screen to find out. */
  lemma OutcomeExactly(a: seq<Change>, b: seq<Change>)
    requires AllOrderly(a) && AllOrderly(b)
    ensures (forall s: Screen :: Proper(s) ==> MakeAll(s, a) == MakeAll(s, b)) <==> SameOutcome(a, b)
  {
    hide SameOutcome, MakeAll, AllOrderly, Proper;
    if SameOutcome(a, b) {
      forall s: Screen | Proper(s) ensures MakeAll(s, a) == MakeAll(s, b) {
        OutcomeSuffices(s, a, b);
      }
    } else if Alike(a, b) {
      OutcomeNecessary(a, b);
    }
  }

  // ---- single changes ----

  lemma {:induction false} AmendLeavesCursor(cs: seq<Change>, i: nat)
    requires i < |cs| && cs[i].Amend?
    ensures LastCursor(cs).Some?
  {
    if i == |cs| - 1 {
    } else {
      AmendLeavesCursor(cs[..|cs| - 1], i);
    }
  }

  lemma {:induction false} WriteIsLeft(cs: seq<Change>, i: nat, r: nat, j: nat)
    requires i < |cs| && cs[i].Amend? && Written(cs[i].delta.changedRows, r, j).Some?
    ensures LastWritten(cs, r, j).Some?
  {
    hide Written;
    if i == |cs| - 1 {
    } else {
      WriteIsLeft(cs[..|cs| - 1], i, r, j);
    }
  }

  lemma OneChange(c: Change)
    ensures Resets([c]) <==> c.Draw? || c.Drop?
    ensures LastCursor([c]) == (if c.Amend? then Some(DeltaCursor(c.delta)) else None)
    ensures forall r, j :: LastWritten([c], r, j) == if c.Amend? then Written(c.delta.changedRows, r, j) else None
  {
    hide Written;
    assert [c][..0] == [];
    if c.Draw? || c.Drop? {
      assert [c][0].Draw? || [c][0].Drop?;
    }
  }
}
