/** From the server's terminal snapshot to the wire grid, and what a client shows of it. */
module Adapter {
  import opened Bytes
  import opened Grid
  import opened WireDecode
  import opened Snapshot
  import opened DeltaRefinement
  import opened ClientGui
  import opened RemoteState
  import opened ServerRun
  import opened Replication
  import opened MobileClient
  import opened WireEncode

  /** A terminal as the server holds it: the snapshot, its foreground colour and its scrollbar. */
  datatype Terminal = Terminal(snapshot: TerminalSnapshot, foreground: Rgb, scrollOffset: u64, scrollTotal: u64)

  function Bit(b: bool, mask: byte): byte {
    if b then mask else 0
  }

  /** Bold, italic, hyperlink, explicit foreground, explicit background. */
  function StyleFlags(c: CellSnapshot, foreground: Rgb): byte {
    Bit(c.bold, 0x01) + Bit(c.italic, 0x02) + Bit(c.hyperlink, 0x04) + Bit(c.fg != foreground, 0x20)
    + Bit(!c.bgIsDefault, 0x40)
  }

  /** A foreground equal to the terminal's own is not sent as explicit. */
  function CellOnWire(c: CellSnapshot, foreground: Rgb): RemoteCell {
    RemoteCell(if c.text == [] then 0 else c.text[0], c.fg, c.bg, StyleFlags(c, foreground), c.displayWidth > 1)
  }

  function CellsOnWire(row: seq<CellSnapshot>, foreground: Rgb): (r: seq<RemoteCell>)
    ensures |r| == |row|
  {
    seq(|row|, i requires 0 <= i < |row| => CellOnWire(row[i], foreground))
  }

  function Flatten(rows: seq<seq<CellSnapshot>>, foreground: Rgb): seq<RemoteCell> {
    if rows == [] then [] else CellsOnWire(rows[0], foreground) + Flatten(rows[1..], foreground)
  }

  function GridOf(s: TerminalSnapshot, foreground: Rgb, viewportTop: u64, scrollbackTotal: u64): RemoteFullState {
    RemoteFullState(0, viewportTop, scrollbackTotal, s.rows, s.cols, s.cursor.x, s.cursor.y, s.cursor.visible,
                    s.cursor.blinking, s.cursor.style, Flatten(s.rowsData, foreground))
  }

  function FullStateFromTerminal(t: Terminal): RemoteFullState {
    GridOf(t.snapshot, t.foreground, t.scrollOffset, t.scrollTotal)
  }

  /** The adapter for UI snapshots takes black for the foreground, and the row count for the scrollback. */
  function FullStateFromUi(s: TerminalSnapshot): RemoteFullState {
    GridOf(s, Rgb(0, 0, 0), 0, s.rows)
  }

  // ---- one cell ----

  predicate Scalar(n: u32) {
    n < 0xD800 || 0xE000 <= n <= 0x10FFFF
  }

  /** A string of Unicode scalar values. */
  predicate Readable(c: CellSnapshot) {
    forall i :: 0 <= i < |c.text| ==> Scalar(c.text[i])
  }

  /** Whatever codepoint comes in, a client only ever draws Unicode scalar values, one a cell at most. */
  lemma DrawnIsReadable(c: RemoteCell, theme: Theme)
    ensures Readable(RenderCell(c, theme)) && |RenderCell(c, theme).text| <= 1
    ensures RenderCell(c, theme).text == [] <==> c.codepoint == 0 || !Scalar(c.codepoint)
  {
  }

  /** What the wire can carry of a cell under a client's theme: one character other than NUL, one or
      two columns, no underline, and defaults that mean the same on both sides. */
  predicate Carried(c: CellSnapshot, foreground: Rgb, theme: Theme) {
    && (c.text == [] || (|c.text| == 1 && c.text[0] != 0))
    && 1 <= c.displayWidth <= 2
    && c.underline == 0
    && (c.fg == foreground ==> theme.foreground == foreground)
    && (c.bgIsDefault ==> c.bg == theme.background)
  }

  lemma FlagsSurvive(c: CellSnapshot, foreground: Rgb)
    ensures var flags := StyleFlags(c, foreground);
            && (HasFlag(flags, 0x01) <==> c.bold) && (HasFlag(flags, 0x02) <==> c.italic)
            && (HasFlag(flags, 0x04) <==> c.hyperlink) && (HasFlag(flags, 0x20) <==> c.fg != foreground)
            && (HasFlag(flags, 0x40) <==> !c.bgIsDefault)
  {
    var explicitFg := c.fg != foreground;
    if c.bold && c.italic { } else if c.bold { } else if c.italic { } else { }
    if c.hyperlink && explicitFg { } else if c.hyperlink { } else if explicitFg { } else { }
  }

  /** A cell comes back from the wire as it was exactly when the wire can carry it. */
  lemma CellExactly(c: CellSnapshot, foreground: Rgb, theme: Theme)
    requires Readable(c)
    ensures RenderCell(CellOnWire(c, foreground), theme) == c <==> Carried(c, foreground, theme)
  {
    hide StyleFlags, HasFlag;
    FlagsSurvive(c, foreground);
    if |c.text| == 1 {
      assert c.text == [c.text[0]];
    }
  }

  // ---- whole grids ----

  /** Every row is there and as wide as the screen. */
  predicate Regular(s: TerminalSnapshot) {
    |s.rowsData| == s.rows && forall r :: 0 <= r < |s.rowsData| ==> |s.rowsData[r]| == s.cols
  }

  lemma {:induction false} FlattenRow(rows: seq<seq<CellSnapshot>>, cols: nat, foreground: Rgb, r: nat)
    requires forall i :: 0 <= i < |rows| ==> |rows[i]| == cols
    ensures |Flatten(rows, foreground)| == |rows| * cols
    ensures r < |rows| ==> 0 <= r * cols <= (r + 1) * cols <= |rows| * cols
                           && Flatten(rows, foreground)[r * cols..(r + 1) * cols] == CellsOnWire(rows[r], foreground)
  {
    hide CellOnWire;
    if rows == [] {
    } else {
      var first, rest := CellsOnWire(rows[0], foreground), Flatten(rows[1..], foreground);
      FlattenRow(rows[1..], cols, foreground, if r == 0 then 0 else r - 1);
      MulStep(|rows| - 1, cols);
      if r < |rows| {
        RowBounds(r, |rows|, cols);
        if r == 0 {
          assert (first + rest)[0..cols] == first;
        } else {
          MulStep(r - 1, cols);
          assert (first + rest)[r * cols..(r + 1) * cols] == rest[(r - 1) * cols..r * cols];
        }
      }
    }
  }

  /** A regular snapshot gives a grid the encoders accept, row for row. */
  lemma GridIsWhole(s: TerminalSnapshot, foreground: Rgb, viewportTop: u64, scrollbackTotal: u64)
    requires Regular(s)
    ensures var g := GridOf(s, foreground, viewportTop, scrollbackTotal);
            g.WellFormed() && forall r: nat :: r < g.rows ==> g.Row(r) == CellsOnWire(s.rowsData[r], foreground)
  {
    hide CellsOnWire;
    var g := GridOf(s, foreground, viewportTop, scrollbackTotal);
    FlattenRow(s.rowsData, s.cols, foreground, 0);
    forall r: nat | r < g.rows ensures g.Row(r) == CellsOnWire(s.rowsData[r], foreground) {
      FlattenRow(s.rowsData, s.cols, foreground, r);
    }
  }

  predicate RowCarried(row: seq<CellSnapshot>, foreground: Rgb, theme: Theme) {
    forall j :: 0 <= j < |row| ==> Carried(row[j], foreground, theme)
  }

  lemma RowExactly(row: seq<CellSnapshot>, foreground: Rgb, theme: Theme)
    requires forall j :: 0 <= j < |row| ==> Readable(row[j])
    ensures RenderRow(CellsOnWire(row, foreground), theme) == row <==> RowCarried(row, foreground, theme)
  {
    hide RenderCell, CellOnWire, Carried;
    var shown := RenderRow(CellsOnWire(row, foreground), theme);
    forall j | 0 <= j < |row| ensures shown[j] == row[j] <==> Carried(row[j], foreground, theme) {
      CellExactly(row[j], foreground, theme);
    }
    if shown == row {
      assert forall j :: 0 <= j < |row| ==> shown[j] == row[j];
    }
  }

  predicate AllReadable(s: TerminalSnapshot) {
    forall r, j :: 0 <= r < |s.rowsData| && 0 <= j < |s.rowsData[r]| ==> Readable(s.rowsData[r][j])
  }

  predicate AllCarried(s: TerminalSnapshot, foreground: Rgb, theme: Theme) {
    && (s.cols == 0 ==> s.rows == 0)
    && forall r :: 0 <= r < |s.rowsData| ==> RowCarried(s.rowsData[r], foreground, theme)
  }

  /** A client draws the server's terminal, cell for cell and cursor included, exactly when the wire
      can carry every cell under the client's theme (and a terminal without columns has no rows). */
  lemma RenderedExactly(s: TerminalSnapshot, foreground: Rgb, viewportTop: u64, scrollbackTotal: u64, seed: u64,
                        theme: Theme)
    requires Regular(s) && AllReadable(s)
    ensures var shown := Render(GridOf(s, foreground, viewportTop, scrollbackTotal), seed, theme);
            s == shown.(rowRevisions := s.rowRevisions) <==> AllCarried(s, foreground, theme)
  {
    var g := GridOf(s, foreground, viewportTop, scrollbackTotal);
    var shown := Render(g, seed, theme);
    GridIsWhole(s, foreground, viewportTop, scrollbackTotal);
    RenderRows(g, seed, theme);
    hide RowCarried, CellsOnWire, RenderRow, RenderChunks;
    forall r | 0 <= r < |shown.rowsData|
      ensures shown.rowsData[r] == s.rowsData[r] <==> RowCarried(s.rowsData[r], foreground, theme)
    {
      RowExactly(s.rowsData[r], foreground, theme);
    }
    if s == shown.(rowRevisions := s.rowRevisions) {
      assert shown.rowsData == s.rowsData;
    }
  }

  /** The same for UI snapshots, which take black for the foreground: what is drawn in black must
      find a client whose foreground is black. */
  lemma UiRenderedExactly(s: TerminalSnapshot, seed: u64, theme: Theme)
    requires Regular(s) && AllReadable(s)
    ensures s == Render(FullStateFromUi(s), seed, theme).(rowRevisions := s.rowRevisions)
            <==> AllCarried(s, Rgb(0, 0, 0), theme)
  {
    RenderedExactly(s, Rgb(0, 0, 0), 0, s.rows, seed, theme);
  }

  /** The rows of a terminal are identified by its scrollback: row `i` is the line `i` below the
      scrollbar's offset, of the total it states; those of a UI snapshot count from 0. */
  lemma TerminalIdentified(t: Terminal, latestInputSeq: Option<u64>, local: bool)
    requires Regular(t.snapshot) && t.snapshot.rows > 0 && t.snapshot.cols > 0
    ensures var d := DecodeMobileFull(FullPayload(FullStateFromTerminal(t), latestInputSeq, local), local);
            && d.Some? && d.value.replica.Some?
            && var r := d.value.replica.value;
               && r.viewportTop == t.scrollOffset && r.scrollbackTotal == t.scrollTotal && r.epoch == 0
               && |r.rowIds| == t.snapshot.rows
               && forall i :: 0 <= i < |r.rowIds| && t.scrollOffset + i < U64_LIMIT ==>
                    r.rowIds[i] == t.scrollOffset + i
    ensures var u := DecodeMobileFull(FullPayload(FullStateFromUi(t.snapshot), latestInputSeq, local), local);
            && u.Some? && u.value.replica.Some?
            && u.value.replica.value.viewportTop == 0 && u.value.replica.value.scrollbackTotal == t.snapshot.rows
  {
    hide DecodeMobileFull, FullPayload, Flatten;
    GridIsWhole(t.snapshot, t.foreground, t.scrollOffset, t.scrollTotal);
    GridIsWhole(t.snapshot, Rgb(0, 0, 0), 0, t.snapshot.rows);
    MobileFullExactly(FullStateFromTerminal(t), latestInputSeq, local);
    MobileFullExactly(FullStateFromUi(t.snapshot), latestInputSeq, local);
  }

  // ---- from terminal to client ----

  /** End to end from the terminal: whenever the server has cached the grid of a terminal whose cells
      the wire can carry, row identities aside, a client that has drained its queue shows that
      terminal. */
  lemma TerminalEndToEnd(ops: seq<Op>, app: App, json: Json, p: u64, t: Terminal)
    requires DisciplinedRun(Connected(true), ops, json, iset{DEFAULT_THEME}) && app.theme == DEFAULT_THEME
    requires Regular(t.snapshot) && AllReadable(t.snapshot)
    requires AllCarried(t.snapshot, t.foreground, DEFAULT_THEME)
    ensures EnabledRun(Connected(true), ops)
    ensures var st := Run(Connected(true), ops);
            st.client.Some? && p in st.client.value.view.paneStates
            && WithoutReplicaFields(st.client.value.view.paneStates[p])
               == WithoutReplicaFields(FullStateFromTerminal(t)) ==>
              var d := Drain(app, st.client.value.outbound, json);
              p in d.panes && t.snapshot == d.panes[p].(rowRevisions := t.snapshot.rowRevisions)
  {
    hide Run, Drain, GridOf, AllCarried, RenderChunks;
    EndToEndExact(ops, app, json, p);
    RenderedExactly(t.snapshot, t.foreground, t.scrollOffset, t.scrollTotal, 0, DEFAULT_THEME);
  }
}
