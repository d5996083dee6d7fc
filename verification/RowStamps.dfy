/** Snapshot generations and row revisions as version stamps: equal stamps, equal rows. */
module RowStamps {
  import opened Bytes
  import opened Grid
  import opened WireEncode
  import opened WireDecode
  import opened Snapshot
  import opened DeltaRefinement
  import opened ClientGui

  function RunEvents(a: App, es: seq<Event>): App
    decreases |es|
  {
    if es == [] then a else RunEvents(Handle(a, es[0]), es[1..])
  }

  /** What the decoders can produce from the server's frames, whole grids and no scroll, and the
      UI snapshots of terminals whose rows are as wide as the terminal. */
  predicate Plausible(e: Event) {
    match e
    case PaneFull(_, _, grid) => grid.WellFormed()
    case FullScreen(grid) => grid.WellFormed()
    case PaneDelta(_, _, delta) => delta.scrollRows == 0
    case ScreenDelta(delta) => delta.scrollRows == 0
    case UiSnapshot(terminals, _, _) => forall p :: p in terminals ==> EvenRows(terminals[p])
    case _ => true
  }

  predicate EvenRows(s: TerminalSnapshot) {
    forall r :: 0 <= r < |s.rowsData| ==> |s.rowsData[r]| == s.cols
  }

  predicate AllPlausible(es: seq<Event>) {
    forall i :: 0 <= i < |es| ==> Plausible(es[i])
  }

  lemma DecodedGridsAreWhole(payload: seq<byte>)
    ensures DecodeFull(payload).Some? ==> DecodeFull(payload).value.1.WellFormed()
  {
    hide DecodeCell, U32At;
  }

  /** One per event, plus one per row a delta mentions. */
  function Weight(es: seq<Event>): nat {
    if es == [] then 0
    else 1 + (match es[0]
              case PaneDelta(_, _, delta) => |delta.changedRows|
              case ScreenDelta(delta) => |delta.changedRows|
              case _ => 0) + Weight(es[1..])
  }

  // ---- the stamps of full states ----

  /** Stamps handed out by a run: one per row of each full state accepted, at least one each. */
  function Handed(a: App, es: seq<Event>): nat
    decreases |es|
  {
    if es == [] then 0
    else
      (if !Seeds(a, es[0]) then 0 else if es[0].grid.rows == 0 then 1 else es[0].grid.rows)
      + Handed(Handle(a, es[0]), es[1..])
  }

  predicate Seeds(a: App, e: Event) {
    e.FullScreen? || (e.PaneFull? && Allocates(a, e))
  }

  lemma {:induction false} SeedsAdvance(a: App, es: seq<Event>)
    ensures RunEvents(a, es).nextRevisionSeed == WrappingAdd(a.nextRevisionSeed, Handed(a, es))
    decreases |es|
  {
    hide Render, ApplyDelta;
    if es == [] {
    } else {
      var n := if !Seeds(a, es[0]) then 0 else if es[0].grid.rows == 0 then 1 else es[0].grid.rows;
      SeedsAdvance(Handle(a, es[0]), es[1..]);
      assert Handle(a, es[0]).nextRevisionSeed == WrappingAdd(a.nextRevisionSeed, n);
      WrappingAddTwice(a.nextRevisionSeed, n, Handed(Handle(a, es[0]), es[1..]));
    }
  }

  /** The rows of a full state are stamped apart from each other, and from the rows of every later one,
      until 2^64 stamps have been handed out. */
  lemma FreshStamps(a: App, first: Event, es: seq<Event>, second: Event, p: u64, q: u64, i: nat, j: nat)
    requires first.PaneFull? && first.paneId == p && Allocates(a, first)
    requires second.PaneFull? && second.paneId == q && Allocates(RunEvents(Handle(a, first), es), second)
    requires Handed(a, [first] + es) + second.grid.rows <= U64_LIMIT
    requires i < first.grid.rows && j < second.grid.rows
    ensures var b := Handle(a, first);
            var c := Handle(RunEvents(b, es), second);
            && p in b.panes && |b.panes[p].rowRevisions| == first.grid.rows
            && q in c.panes && |c.panes[q].rowRevisions| == second.grid.rows
            && b.panes[p].rowRevisions[i] != c.panes[q].rowRevisions[j]
            && forall k: nat :: k < first.grid.rows && k != i ==>
                 b.panes[p].rowRevisions[k] != b.panes[p].rowRevisions[i]
  {
    hide RunEvents, ApplyDelta, RenderChunks;
    assert ([first] + es)[1..] == es;
    SeedsAdvance(Handle(a, first), es);
    var seed, n, more := a.nextRevisionSeed, first.grid.rows, Handed(Handle(a, first), es);
    WrappingAddTwice(seed, n, more);
    WrappingAddTwice(seed, n + more, j);
    Apart(seed, i, n + more + j);
    forall k: nat | k < n && k != i ensures WrappingAdd(seed, k) != WrappingAdd(seed, i) {
      Apart(seed, if k < i then k else i, if k < i then i else k);
    }
  }

  lemma Apart(x: u64, m: nat, n: nat)
    requires m < n < U64_LIMIT
    ensures WrappingAdd(x, m) != WrappingAdd(x, n)
  {
  }

  // ---- what holds of every client ----

  predicate Shaped(s: TerminalSnapshot) {
    && (s.rowsData == [] || |s.rowRevisions| == |s.rowsData|)
    && EvenRows(s)
  }

  predicate StampInvariant(a: App) {
    && a.nextGeneration == WrappingAdd(a.generation, 1)
    && forall p :: p in a.panes ==> Shaped(a.panes[p])
  }

  lemma RenderShaped(g: RemoteFullState, seed: u64, t: Theme)
    requires g.WellFormed()
    ensures Shaped(Render(g, seed, t))
  {
    RenderRows(g, seed, t);
  }

  lemma {:induction false} ApplyRowsShaped(rows: Rows, d: seq<RowDelta>, cols: nat)
    requires |rows.revisions| == |rows.data|
    requires forall r :: 0 <= r < |rows.data| ==> |rows.data[r]| == cols
    ensures forall r :: 0 <= r < |rows.data| ==> |ApplyRows(rows, d, cols).data[r]| == cols
  {
    hide RenderRow;
    if d == [] {
    } else {
      ApplyRowsShaped(rows, d[..|d| - 1], cols);
    }
  }

  lemma PatchShaped(s: TerminalSnapshot, d: RemoteDelta)
    requires Shaped(s) && d.scrollRows == 0
    ensures Shaped(ApplyDelta(s, d))
  {
    ApplyRowsShaped(StartRows(s, d), d.changedRows, s.cols);
  }

  lemma RestampedShaped(terminals: Panes, p: u64)
    requires p in terminals && EvenRows(terminals[p])
    ensures Shaped(Restamped(terminals)[p])
  {
  }

  lemma HandleKeepsStamps(a: App, e: Event)
    requires StampInvariant(a) && Plausible(e)
    ensures StampInvariant(Handle(a, e))
  {
    hide Shaped, ApplyDelta, Render;
    match e
    case PaneFull(_, _, grid) => RenderShaped(grid, a.nextRevisionSeed, a.theme);
    case FullScreen(grid) => RenderShaped(grid, a.nextRevisionSeed, a.theme);
    case PaneDelta(p, _, delta) => if p in a.panes { PatchShaped(a.panes[p], delta); }
    case ScreenDelta(delta) => if a.focusedPaneId in a.panes { PatchShaped(a.panes[a.focusedPaneId], delta); }
    case UiSnapshot(terminals, _, _) =>
      forall p | p in terminals ensures Shaped(Restamped(terminals)[p]) {
        assert EvenRows(terminals[p]);
        assert Shaped(Restamped(terminals)[p]) by { RestampedShaped(terminals, p); }
      }
    case _ =>
  }

  lemma {:induction false} RunKeepsStamps(a: App, es: seq<Event>)
    requires StampInvariant(a) && AllPlausible(es)
    ensures StampInvariant(RunEvents(a, es))
    decreases |es|
  {
    hide StampInvariant, Handle;
    if es == [] {
    } else {
      HandleKeepsStamps(a, es[0]);
      RunKeepsStamps(Handle(a, es[0]), es[1..]);
    }
  }

  /** After a UI snapshot the client holds its terminals, each under its own pane, with their size,
      rows and cursor, all rows freshly stamped; and no other pane. */
  lemma SnapshotHeld(a: App, terminals: Panes, t: Theme, focusedPane: u64)
    ensures var b := Handle(a, UiSnapshot(terminals, t, focusedPane));
            && (forall p :: p in b.panes <==> p in terminals)
            && (forall p :: p in terminals ==>
                  && b.panes[p] == terminals[p].(rowRevisions := b.panes[p].rowRevisions)
                  && |b.panes[p].rowRevisions| == |terminals[p].rowsData|
                  && forall r :: 0 <= r < |terminals[p].rowsData| ==> b.panes[p].rowRevisions[r] == 1)
            && b.theme == t && b.focusedPaneId == focusedPane && b.generation == a.nextGeneration
  {
  }

  // ---- what an event leaves alone ----

  /** The pane an event may change, if any; a view of another revision drops them all. */
  predicate Concerns(a: App, e: Event, p: u64) {
    match e
    case RuntimeState(s) => a.viewRevision != 0 && s.viewRevision != a.viewRevision
    case PaneFull(paneId, _, _) => p == paneId
    case PaneDelta(paneId, _, _) => p == paneId
    case FullScreen(_) => a.focusedPaneId != 0 && p == a.focusedPaneId
    case ScreenDelta(_) => p == a.focusedPaneId
    case UiSnapshot(_, _, _) => true
    case _ => false
  }

  /** A pane is shown, or not, as before until an event concerns it; a screen without a focused pane lands
      nowhere. */
  lemma OthersUntouched(a: App, e: Event, p: u64)
    requires !Concerns(a, e, p)
    ensures p in Handle(a, e).panes <==> p in a.panes
    ensures p in a.panes ==> Handle(a, e).panes[p] == a.panes[p]
  {
    hide ApplyDelta, Render;
  }

  predicate KeepsTheme(es: seq<Event>) {
    forall i :: 0 <= i < |es| ==> !es[i].Appearance? && !es[i].UiSnapshot?
  }

  lemma {:induction false} ThemeStays(a: App, es: seq<Event>)
    requires KeepsTheme(es)
    ensures RunEvents(a, es).theme == a.theme
    decreases |es|
  {
    hide ApplyDelta, Render;
    if es == [] {
    } else {
      ThemeStays(Handle(a, es[0]), es[1..]);
    }
  }

  /** Full states are drawn in the colours last received, whatever came in between. */
  lemma LatestColoursDraw(a: App, t: Theme, es: seq<Event>, e: Event)
    requires KeepsTheme(es) && e.PaneFull?
    requires Allocates(RunEvents(Handle(a, Appearance(t)), es), e)
    ensures var b := RunEvents(Handle(a, Appearance(t)), es);
            var c := Handle(b, e);
            && e.paneId in c.panes
            && exists seed :: c.panes[e.paneId] == Render(e.grid, seed, t)
  {
    hide ApplyDelta, Render, RunEvents;
    var b := RunEvents(Handle(a, Appearance(t)), es);
    ThemeStays(Handle(a, Appearance(t)), es);
    assert Handle(b, e).panes[e.paneId] == Render(e.grid, b.nextRevisionSeed, t);
  }

  // ---- generations ----

  predicate Allocates(a: App, e: Event) {
    || e.FullScreen? || e.UiSnapshot?
    || (e.PaneFull? && !(e.runtimeRevision != 0 && e.runtimeRevision < a.runtimeRevision))
  }

  function Allocations(a: App, es: seq<Event>): nat
    decreases |es|
  {
    if es == [] then 0 else (if Allocates(a, es[0]) then 1 else 0) + Allocations(Handle(a, es[0]), es[1..])
  }

  lemma WrappingAddTwice(x: u64, m: nat, n: nat)
    ensures WrappingAdd(WrappingAdd(x, m), n) == WrappingAdd(x, m + n)
  {
  }

  lemma {:induction false} GenerationCounts(a: App, es: seq<Event>)
    requires StampInvariant(a) && AllPlausible(es)
    ensures RunEvents(a, es).generation == WrappingAdd(a.generation, Allocations(a, es))
    ensures Allocations(a, es) <= Weight(es)
    decreases |es|
  {
    hide Render, ApplyDelta, Shaped;
    if es == [] {
    } else {
      HandleKeepsStamps(a, es[0]);
      GenerationCounts(Handle(a, es[0]), es[1..]);
      WrappingAddTwice(a.generation, if Allocates(a, es[0]) then 1 else 0, Allocations(Handle(a, es[0]), es[1..]));
    }
  }

  // ---- revisions ----

  /** How often the entries of a delta write row `r`. */
  function Touches(d: seq<RowDelta>, cols: nat, r: nat): (n: nat)
    ensures n <= |d|
  {
    if d == [] then 0
    else Touches(d[..|d| - 1], cols, r) + (if d[|d| - 1].row == r && d[|d| - 1].startCol < cols then 1 else 0)
  }

  lemma {:induction false} TouchesCount(rows: Rows, d: seq<RowDelta>, cols: nat, r: nat)
    requires |rows.revisions| == |rows.data| && r < |rows.data|
    requires forall i :: 0 <= i < |rows.data| ==> |rows.data[i]| == cols
    ensures var out := ApplyRows(rows, d, cols);
            && out.revisions[r] == WrappingAdd(rows.revisions[r], Touches(d, cols, r))
            && (Touches(d, cols, r) == 0 ==> out.data[r] == rows.data[r])
  {
    hide PatchRow;
    if d == [] {
    } else {
      var before, last := d[..|d| - 1], d[|d| - 1];
      TouchesCount(rows, before, cols, r);
      ApplyRowsShaped(rows, before, cols);
      WrappingAddTwice(rows.revisions[r], Touches(before, cols, r), 1);
    }
  }

  /** How often one event writes row `r` of pane `p`. */
  function EventTouches(a: App, e: Event, p: u64, r: nat): nat {
    if p !in a.panes then 0
    else match e
         case PaneDelta(q, revision, delta) =>
           if q != p || (revision != 0 && revision != a.runtimeRevision) then 0
           else Touches(delta.changedRows, a.panes[p].cols, r)
         case ScreenDelta(delta) =>
           if a.focusedPaneId != p then 0 else Touches(delta.changedRows, a.panes[p].cols, r)
         case _ => 0
  }

  function RunTouches(a: App, es: seq<Event>, p: u64, r: nat): nat
    decreases |es|
  {
    if es == [] then 0 else EventTouches(a, es[0], p, r) + RunTouches(Handle(a, es[0]), es[1..], p, r)
  }

  /** Row `r` of pane `p` in `b` is that of `a` after `n` writes. */
  predicate RowAfter(a: App, b: App, p: u64, r: nat, n: nat) {
    && p in a.panes && p in b.panes
    && |a.panes[p].rowsData| == |b.panes[p].rowsData| && r < |a.panes[p].rowsData|
    && |a.panes[p].rowRevisions| == |b.panes[p].rowRevisions| == |a.panes[p].rowsData|
    && b.panes[p].rowRevisions[r] == WrappingAdd(a.panes[p].rowRevisions[r], n)
    && (n == 0 ==> b.panes[p].rowsData[r] == a.panes[p].rowsData[r])
  }

  lemma PatchedRowAfter(s: TerminalSnapshot, d: RemoteDelta, r: nat)
    requires Shaped(s) && d.scrollRows == 0 && r < |s.rowsData|
    ensures var out, n := ApplyDelta(s, d), Touches(d.changedRows, s.cols, r);
            && |out.rowsData| == |out.rowRevisions| == |s.rowsData|
            && out.rowRevisions[r] == WrappingAdd(s.rowRevisions[r], n)
            && (n == 0 ==> out.rowsData[r] == s.rowsData[r])
  {
    TouchesCount(StartRows(s, d), d.changedRows, s.cols, r);
  }

  /** Without a full state in between, a surviving pane's rows only move by counted writes. */
  lemma StepRowAfter(a: App, e: Event, p: u64, r: nat)
    requires StampInvariant(a) && Plausible(e) && !Allocates(a, e)
    requires p in Handle(a, e).panes && r < |Handle(a, e).panes[p].rowsData|
    ensures RowAfter(a, Handle(a, e), p, r, EventTouches(a, e, p, r))
  {
    hide ApplyDelta, Touches;
    assert p in a.panes && Shaped(a.panes[p]);
    match e
    case PaneDelta(q, _, delta) =>
      SameRowCount(a.panes[p], delta);
      if r < |a.panes[p].rowsData| { PatchedRowAfter(a.panes[p], delta, r); }
    case ScreenDelta(delta) =>
      SameRowCount(a.panes[p], delta);
      if r < |a.panes[p].rowsData| { PatchedRowAfter(a.panes[p], delta, r); }
    case _ =>
  }

  lemma SameRowCount(s: TerminalSnapshot, d: RemoteDelta)
    ensures |ApplyDelta(s, d).rowsData| == |s.rowsData|
  {
  }

  lemma RowAfterTwice(a: App, b: App, c: App, p: u64, r: nat, m: nat, n: nat)
    requires RowAfter(a, b, p, r, m) && RowAfter(b, c, p, r, n)
    ensures RowAfter(a, c, p, r, m + n)
  {
    WrappingAddTwice(a.panes[p].rowRevisions[r], m, n);
  }

  lemma {:induction false} RunRowAfter(a: App, es: seq<Event>, p: u64, r: nat)
    requires StampInvariant(a) && AllPlausible(es) && Allocations(a, es) == 0
    requires p in RunEvents(a, es).panes && r < |RunEvents(a, es).panes[p].rowsData|
    ensures RowAfter(a, RunEvents(a, es), p, r, RunTouches(a, es, p, r))
    ensures RunTouches(a, es, p, r) <= Weight(es)
    decreases |es|
  {
    hide Handle, RowAfter;
    if es == [] {
      assert RowAfter(a, a, p, r, 0) by { SelfRowAfter(a, p, r); }
    } else {
      var b := Handle(a, es[0]);
      HandleKeepsStamps(a, es[0]);
      RunRowAfter(b, es[1..], p, r);
      assert p in b.panes && r < |b.panes[p].rowsData| by {
        RowAfterFacts(b, RunEvents(b, es[1..]), p, r, RunTouches(b, es[1..], p, r));
      }
      StepRowAfter(a, es[0], p, r);
      RowAfterTwice(a, b, RunEvents(b, es[1..]), p, r, EventTouches(a, es[0], p, r), RunTouches(b, es[1..], p, r));
    }
  }

  lemma SelfRowAfter(a: App, p: u64, r: nat)
    requires StampInvariant(a) && p in a.panes && r < |a.panes[p].rowsData|
    ensures RowAfter(a, a, p, r, 0)
  {
    assert Shaped(a.panes[p]);
  }

  lemma RowAfterFacts(a: App, b: App, p: u64, r: nat, n: nat)
    requires RowAfter(a, b, p, r, n)
    ensures p in a.panes && p in b.panes && r < |a.panes[p].rowsData| == |b.panes[p].rowsData|
    ensures |a.panes[p].rowRevisions| == |b.panes[p].rowRevisions| == |a.panes[p].rowsData|
    ensures b.panes[p].rowRevisions[r] == WrappingAdd(a.panes[p].rowRevisions[r], n)
    ensures n == 0 ==> b.panes[p].rowsData[r] == a.panes[p].rowsData[r]
  {
  }

  const STARTED: App := App(map[], 0, 0, 0, DEFAULT_THEME, 1, 2, 1)

  /** Row stamps are sound: between any two moments of a client's life less than 2^64 apart, equal
      snapshot generation and equal row revision mean the row shows the same cells. */
  lemma StampsAreSound(before: seq<Event>, between: seq<Event>, p: u64, r: nat)
    requires AllPlausible(before) && AllPlausible(between) && Weight(between) < U64_LIMIT
    ensures var a := RunEvents(STARTED, before);
            var b := RunEvents(a, between);
            a.generation == b.generation && p in b.panes && r < |b.panes[p].rowsData| ==>
              && p in a.panes && |a.panes[p].rowsData| == |a.panes[p].rowRevisions| == |b.panes[p].rowRevisions|
              && r < |a.panes[p].rowsData|
              && (a.panes[p].rowRevisions[r] == b.panes[p].rowRevisions[r] ==>
                    a.panes[p].rowsData[r] == b.panes[p].rowsData[r])
  {
    hide RunEvents, RowAfter, Weight, Allocations;
    var a := RunEvents(STARTED, before);
    var b := RunEvents(a, between);
    RunKeepsStamps(STARTED, before);
    GenerationCounts(a, between);
    if a.generation == b.generation && p in b.panes && r < |b.panes[p].rowsData| {
      NoWrap(a.generation, Allocations(a, between));
      RunRowAfter(a, between, p, r);
      RowAfterFacts(a, b, p, r, RunTouches(a, between, p, r));
      if a.panes[p].rowRevisions[r] == b.panes[p].rowRevisions[r] {
        NoWrap(a.panes[p].rowRevisions[r], RunTouches(a, between, p, r));
      }
    }
  }

  lemma NoWrap(x: u64, n: nat)
    requires n < U64_LIMIT && WrappingAdd(x, n) == x
    ensures n == 0
  {
  }
}
